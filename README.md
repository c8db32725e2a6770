# Task list: a verified model of its state engine

This project models the core of a small Next.js to-do list in Dafny and proves what its code promises. The modelled parts are:

- **List and draft operations** (`src/lib/task-actions.ts`). These prepend, rename, remove and bulk-delete tasks. They also rebuild the per-id draft record and mark a page as completed.
- **Title rules** (`src/lib/task-helpers.ts`). These are title validation and the check that typed or pasted text would exceed the maximum length.
- **The screen's state holder** (`src/app/tasks-client.tsx`). It is the class `Client.TasksClient`. Its handlers are methods and its derived view is functions. The effect that rebuilds the drafts after every change to the tasks is an explicit call (`RebuildDrafts`).
- **A row's edit mode** (`src/components/TaskRow.tsx`). The pure function `Row.Handle` specifies the row's response to each event. The class `Row.TaskRow` holds `isEditing`, and its handler methods are proved against `Handle`.
- **The startup decision** (`src/app/page.tsx`, `middleware.ts`). This is which list the screen starts from and when the defaults are seeded. The cookie jar is a `map<string, string>`. `JSON.parse` is a parameter whose outcome is `ParseError`, `NonArray` or `Array(items)`.

Modules:

- `Types`, `Seqs` and `Text` hold the shared records, a generic order-keeping `Filter`, and JavaScript's `trim`, `toLowerCase` and `includes`.
- `Constants` holds page size 5, the title bounds 3..40, the cookie names and the five default tasks.
- `TaskActions`, `TaskHelpers`, `Client`, `Row`, `Page` and `Middleware` follow the source files one to one.

`trim` is modelled concretely. It strips exactly the ECMA-262 WhiteSpace and LineTerminator characters. It is proved to remove exactly the surrounding whitespace, to be idempotent and never to lengthen. `toLowerCase` maps A–Z only.

The draft rebuild and the page marking are specified by `Reconciled` and `CompletedForPage`. Each function's own contract states what its result means. The loops in `BuildDraftsFromTasks` and `SetDraftCompletedForPage` are proved to compute exactly these functions.

Duplicate ids are followed as the loops treat them:

- In the rebuild, the last task with an id seeds its draft, because later writes win.
- In page marking, the first page item with an id seeds the title, because later items find the entry already there.

## Model

| member | source | states |
|---|---|---|
| TaskActions.AddTask | src/lib/task-actions.ts:3-5 | the new task is first, the old list follows unchanged, and the ids gain exactly the new id |
| TaskActions.UpdateTaskTitle | src/lib/task-actions.ts:7-9 | same length and order; every id and completion flag kept; a task's title becomes `title` exactly when its id matches |
| TaskActions.UpdateTaskTitleMissing | src/lib/task-actions.ts:7-9 | renaming an id not in the list returns the list unchanged |
| TaskActions.UpdateTaskTitleKeepsIds | src/lib/task-actions.ts:7-9 | renaming never changes the set of ids |
| Seqs.Filter | src/lib/task-actions.ts:13 | `Array.prototype.filter`: never longer, and keeps exactly the elements that satisfy the predicate |
| Seqs.FilterConcat | src/lib/task-actions.ts:13 | filtering a concatenation filters each part in order, so relative order is preserved |
| TaskActions.RemoveTasks | src/lib/task-actions.ts:11-14 | keeps exactly the tasks whose id is not among `ids`, never more than before |
| TaskActions.RemoveTasksConcat | src/lib/task-actions.ts:11-14 | removal works piecewise over a concatenation, so the survivors keep their original order |
| TaskActions.RemoveTasksUnknown | src/lib/task-actions.ts:11-14 | removing ids none of which is present (in particular none at all) returns the list unchanged |
| TaskActions.RemoveAddRoundTrip | src/lib/task-actions.ts:3-14 | removing the id of a freshly prepended task gives back the original list |
| TaskActions.RemovedIdsGone | src/lib/task-actions.ts:11-14 | no removed id remains in the result |
| TaskActions.LastWithId | src/lib/task-actions.ts:21-23 | the task that seeds an id's draft in the rebuild is the last task carrying that id: a member of the list with no later task of the same id |
| TaskActions.FirstWithId | src/lib/task-actions.ts:34-35 | the page item that seeds an absent draft is the first one carrying that id: a member with no earlier item of the same id |
| TaskActions.Reconciled | src/lib/task-actions.ts:16-26 | the draft record's keys are exactly the task ids; an existing draft is kept as is; a missing one is seeded from its task's title and completion |
| TaskActions.BuildDraftsFromTasks | src/lib/task-actions.ts:16-26 | the loop builds exactly `Reconciled(prevDrafts, tasks)` |
| TaskActions.ReconcileIdempotent | src/lib/task-actions.ts:16-26 | rebuilding twice against the same tasks equals rebuilding once |
| TaskActions.ReconcileIgnoresVanished | src/lib/task-actions.ts:16-26 | drafts of ids absent from the tasks have no influence: they are dropped |
| TaskActions.ReconcileAdded | src/lib/task-actions.ts:16-26 | a task prepended under a fresh id gets a draft seeded from that very task |
| TaskActions.CompletedForPage | src/lib/task-actions.ts:28-39 | every page item's id gets `completed == checked` with its draft title kept, or seeded from the first page item with that id; all other keys unchanged |
| TaskActions.SetDraftCompletedForPage | src/lib/task-actions.ts:28-39 | the loop builds exactly `CompletedForPage(drafts, pageItems, checked)` |
| TaskActions.CompletedForPageMarksEveryItem | src/lib/task-actions.ts:28-55 | after marking, every page item is effectively `checked` and keeps any existing draft title |
| TaskActions.HasTitleChanged | src/lib/task-actions.ts:41-48 | a task with a draft counts as changed exactly when the trimmed draft title differs from the stored title; a task without a draft, or whose draft holds its own already-trimmed title, is not changed |
| TaskActions.GetDraftCompleted | src/lib/task-actions.ts:50-55 | the effective completion is the draft's flag when a draft exists, and the stored flag otherwise |
| TaskActions.RebuildKeepsCompletion | src/lib/task-actions.ts:16-26 | the rebuild never changes a task's effective completion, unless a later task with the same id and no draft shadows it |
| TaskActions.HasTitleChangedIgnoresCompleted | src/lib/task-actions.ts:41-48 | neither the stored nor the drafted completion flag affects whether a title counts as changed |
| TaskActions.Selected | src/lib/task-actions.ts:62 | the selection is exactly the page items that are effectively completed |
| TaskActions.DeleteSelectedOnPage | src/lib/task-actions.ts:57-68 | with nothing selected the inputs come back with count 0; otherwise the selected ids leave the list and the drafts, and the count is the number selected |
| TaskHelpers.IsValidTitle | src/lib/task-helpers.ts:1-4 | a valid title is at least `min` long even before trimming, with `min <= max`; a title made only of blanks is never valid when `min > 0` |
| TaskHelpers.IsValidTitleTrim | src/lib/task-helpers.ts:1-4 | validating the trimmed value gives the same verdict as validating the raw one |
| TaskHelpers.IsValidTitleUntrimmed | src/lib/task-helpers.ts:1-4 | a value without surrounding blanks is valid exactly when `min <= length <= max` |
| TaskHelpers.WillExceedMax | src/lib/task-helpers.ts:6-18 | a missing end, a reversed or empty selection, or a missing start with the end inside the text: append semantics; a forward selection: the replaced length is subtracted; a missing start with the end past the text counts from the end; an empty insert never exceeds a text within bounds |
| TaskHelpers.WillExceedMaxExamples | src/lib/task-helpers.ts:6-18 | an append past the maximum exceeds; a replacement that stays within it does not |
| Text.Trim | src/lib/task-helpers.ts:2 | `trim` never lengthens, and the result neither starts nor ends with whitespace |
| Text.TrimSlice | src/lib/task-helpers.ts:2 | `trim` removes exactly the surrounding whitespace: the result is a contiguous part of the input with only blanks before and after it |
| Text.TrimAllBlank | src/lib/task-helpers.ts:2 | a value made only of blanks trims to the empty string |
| Text.TrimIdempotent | src/lib/task-helpers.ts:2 | trimming twice is trimming once |
| Text.ToLower | src/app/tasks-client.tsx:70-72 | lower-casing keeps the length, maps each character independently, and leaves no upper-case ASCII letter |
| Text.ToLowerIdempotent | src/app/tasks-client.tsx:70-72 | lower-casing twice is lower-casing once |
| Client.SearchTasks | src/app/tasks-client.tsx:69-73 | a blank query keeps the list; otherwise exactly the tasks whose lower-cased title contains the trimmed lower-cased query |
| Client.SearchTasksConcat | src/app/tasks-client.tsx:69-73 | search distributes over concatenation, so matches keep their original order |
| Client.PageCount | src/app/tasks-client.tsx:75 | at least one page; the fewest pages of five that hold all items (so one page for an empty list) |
| Client.ClampPage | src/app/tasks-client.tsx:76 | the shown page is the stored page or the last page, whichever is smaller |
| Client.Slice | src/app/tasks-client.tsx:78 | `slice` clamps an out-of-range end and yields nothing past the end of the list |
| Client.PageSlice | src/app/tasks-client.tsx:77-78 | at most five items, the exact count left from the page start, all from the filtered list |
| Client.ShownPageNonEmpty | src/app/tasks-client.tsx:75-78 | while anything matches, the shown page is never empty |
| Client.ItemOnItsPage | src/app/tasks-client.tsx:75-78 | item `i` appears at position `i % 5` of page `i / 5 + 1`, which exists |
| Client.PrevFromStalePage | src/app/tasks-client.tsx:261 | as written: while the stored page lies past the last page, Prev leaves the shown page where it is |
| Client.StalePageAfterDeletion | src/app/tasks-client.tsx:108-116 | as written: eleven tasks shown on page three, the eleventh deleted; Prev then keeps showing page two |
| Client.StepBack | src/app/tasks-client.tsx:261 | corrected: stepping back from the shown page moves the shown page back by one, never below the first |
| Client.HasSelection | src/app/tasks-client.tsx:79 | some page item is effectively completed, so the page is not empty |
| Client.BulkDeleteDisabled | src/app/tasks-client.tsx:252 | the bulk-delete dialog is disabled exactly when nothing on the page is selected |
| Client.SelectionAgrees | src/app/tasks-client.tsx:79 | the bulk-delete dialog is disabled exactly when nothing is selected; a selection exists exactly when bulk delete would remove something; an empty page has none |
| Client.ShownTitle | src/app/tasks-client.tsx:195 | a row shows its draft's title when it has a draft, else the stored title |
| Client.CanSave | src/app/tasks-client.tsx:197 | Save is offered for every drafted title that is valid and whose trimmed form differs from the stored title; when offered, the draft exists, is at least the minimum length and its trimmed form is new |
| Client.CanSaveCommits | src/app/tasks-client.tsx:195-197 | an enabled Save has a draft whose trimmed title passes the check `saveTask` makes; no draft means no Save |
| Client.WithDraftTitle | src/app/tasks-client.tsx:97-99 | only `drafts[id].title` changes; an absent draft starts as not completed; other ids untouched |
| Client.WithToggledCompleted | src/app/tasks-client.tsx:101-106 | only `drafts[id].completed` flips; an absent draft counts as not completed, so a first toggle gives completed; other ids untouched |
| Client.ToggleTwice | src/app/tasks-client.tsx:101-106 | toggling an existing draft twice restores the record |
| Client.DraftTitleKeepsCompletion | src/app/tasks-client.tsx:97-99 | editing a title never changes a task's effective completion when the task has a draft or is not completed (every task on screen has a draft, see `TasksClient.SetDraftTitle`) |
| Client.NoticeDue | src/app/tasks-client.tsx:35 | a notice is due exactly when at least the 1000 ms cooldown has passed since the last one, so never within the cooldown |
| Client.NoticeTimes | src/app/tasks-client.tsx:33-38 | notices shown over a run of requests are a subset of the request times |
| Client.NoticeTimesSpaced | src/app/tasks-client.tsx:33-38 | shown notices are at least 1000 ms apart, and the first is 1000 ms after the last before the run |
| Client.SaveClearsDirty | src/app/tasks-client.tsx:118-128 | after a valid save and the rebuild, the saved task has no title change and nothing left to save |
| Client.TasksClient.constructor | src/app/tasks-client.tsx:19-27 | mounts with the initial list, empty query and new title, page one, and drafts seeded by the rebuild |
| Client.TasksClient.ReceiveInitialTasks | src/app/tasks-client.tsx:49-52 | an empty list from the server changes nothing; a non-empty one replaces the tasks, followed by the rebuild |
| Client.TasksClient.RebuildDrafts | src/app/tasks-client.tsx:65-67 | the drafts become `Reconciled(old drafts, tasks)` |
| Client.TasksClient.Filtered | src/app/tasks-client.tsx:69-73 | the matching tasks are tasks of the list, and never more than there are |
| Client.TasksClient.TotalPages | src/app/tasks-client.tsx:75 | just enough pages of five for the matching tasks, and at least one |
| Client.TasksClient.Current | src/app/tasks-client.tsx:76 | the stored page, or the last page when the stored one lies beyond it |
| Client.TasksClient.PageItems | src/app/tasks-client.tsx:77-78 | at most five tasks, all from the list |
| Client.TasksClient.HasSelectionOnPage | src/app/tasks-client.tsx:79 | true exactly when bulk delete would remove something from the shown page |
| Client.TasksClient.CreateTask | src/app/tasks-client.tsx:81-95 | an invalid trimmed title changes nothing; otherwise the trimmed, not completed task is prepended, the input is cleared, and its draft is seeded from it |
| Client.TasksClient.SetNewTitle | src/app/tasks-client.tsx:164 | the new-task input holds the typed value |
| Client.TasksClient.SetQuery | src/app/tasks-client.tsx:156 | a query change resets the page to one |
| Client.TasksClient.ClearQuery | src/app/tasks-client.tsx:157 | clearing empties the query and resets the page to one |
| Client.TasksClient.SetDraftTitle | src/app/tasks-client.tsx:97-99 | the drafts become `WithDraftTitle(old drafts, id, title)`; every task keeps its effective completion, because each task has a draft |
| Client.TasksClient.ToggleDraftCompleted | src/app/tasks-client.tsx:101-106 | the drafts become `WithToggledCompleted(old drafts, id)`; the tasks with that id flip their effective completion and all others keep theirs, because each task has a draft |
| Client.TasksClient.DeleteTask | src/app/tasks-client.tsx:108-116 | the id leaves the tasks and the drafts, and the drafts are exactly the rebuild of the remaining tasks |
| Client.TasksClient.SaveTask | src/app/tasks-client.tsx:118-128 | saves exactly when a draft exists with a valid trimmed title; then only that task's title changes and the row is clean; otherwise nothing changes |
| Client.TasksClient.SetPageCompleted | src/app/tasks-client.tsx:130-132 | the drafts become `CompletedForPage` of the shown page |
| Client.TasksClient.DeleteSelected | src/app/tasks-client.tsx:142-148 | deletes exactly when the page has a selection; a zero count changes no state; otherwise the selected ids are removed and the drafts rebuilt |
| Client.TasksClient.ShowMaxExceededNotice | src/app/tasks-client.tsx:33-38 | shown only when 1000 ms have passed, and only then is the time remembered |
| Client.TasksClient.BeforeInputNew | src/app/tasks-client.tsx:165-172 | non-empty typed text that would overflow the new title is refused, with a notice if due |
| Client.TasksClient.PasteNew | src/app/tasks-client.tsx:173-180 | pasted text that would overflow the new title is refused, with a notice if due |
| Client.TasksClient.BeforeInputRow | src/app/tasks-client.tsx:215-223 | non-empty typed text that would overflow the row's shown title is refused, with a notice if due |
| Client.TasksClient.PasteRow | src/app/tasks-client.tsx:224-232 | pasted text that would overflow the row's shown title is refused, with a notice if due |
| Client.TasksClient.PrevPage | src/app/tasks-client.tsx:261 | one page back, never below one |
| Client.TasksClient.PrevShownPage | src/app/tasks-client.tsx:261 | corrected Prev: from any page but the first, the shown page moves back by one |
| Client.TasksClient.NextPage | src/app/tasks-client.tsx:262 | one page on, never past the last page |
| Client.TasksClient.GotoPage | src/app/tasks-client.tsx:263 | the page becomes the chosen one |
| Row.Cancel | src/components/TaskRow.tsx:80-88 | cancelling ends edit mode and requests a title reset exactly when the shown title differs from the stored one |
| Row.Handle | src/components/TaskRow.tsx:51-141 | one event makes at most one callback, and every callback names the row's own task |
| Row.OnlyEditButtonEnters | src/components/TaskRow.tsx:65-67 | from viewing, edit mode is entered by the Edit button and by nothing else |
| Row.LeavingEditMode | src/components/TaskRow.tsx:51-88 | edit mode is left exactly by Escape, an outside press or an enabled Save, and leaving it either saves or reverts the title |
| Row.OutsidePressIsEscape | src/components/TaskRow.tsx:51-59 | a press outside the row has the same effect as Escape, in either mode |
| Row.InertMouseDown | src/components/TaskRow.tsx:51-59 | a press inside the row, or any press while viewing, changes nothing |
| Row.DisabledInputInert | src/components/TaskRow.tsx:98-108 | the disabled title input takes no keys and no text while viewing |
| Row.SaveGuard | src/components/TaskRow.tsx:69-73 | Save is requested exactly for an enabled Save click in edit mode, and it ends edit mode |
| Row.ToggleOnce | src/components/TaskRow.tsx:91-96 | completion toggles exactly once for a checkbox click in either mode and for a row click while viewing; buttons never toggle |
| Row.DeleteOnlyByButton | src/components/TaskRow.tsx:133-141 | deletion is requested by the Delete button only, in either mode, and the mode is kept |
| Row.RowProps | src/app/tasks-client.tsx:195-214 | a row gets its task and its shown title; Save is enabled only when a draft exists whose trimmed title passes the check `saveTask` makes |
| Row.DraftsAfter | src/app/tasks-client.tsx:210-211 | running the row's draft callbacks only adds draft entries, never drops one |
| Row.CancelRestoresTitle | src/components/TaskRow.tsx:80-88 | after Escape or an outside press, the row shows the stored title again and has nothing to save |
| Row.CheckboxFlips | src/components/TaskRow.tsx:93-96 | for a task that has a draft (as every task on screen does), a checkbox click flips its effective completion, in either mode |
| Row.TypingShows | src/components/TaskRow.tsx:98-101 | text typed while editing becomes the row's shown title |
| Row.TaskRow.constructor | src/components/TaskRow.tsx:37 | a row mounts outside edit mode |
| Row.TaskRow.Rerender | src/components/TaskRow.tsx:24-36 | new props keep the row's edit mode |
| Row.TaskRow.StartEdit | src/components/TaskRow.tsx:65-67 | `handleStartEdit` enters edit mode |
| Row.TaskRow.HandleSave | src/components/TaskRow.tsx:69-73 | without `canSave` nothing happens and the mode stays; with it, one Save callback and back to viewing |
| Row.TaskRow.HandleRowClick | src/components/TaskRow.tsx:75-78 | toggles completion only while viewing |
| Row.TaskRow.Revert | src/components/TaskRow.tsx:55-58 | leaves edit mode as `Cancel` says |
| Row.TaskRow.HandleKeyDown | src/components/TaskRow.tsx:80-88 | Escape cancels as `Cancel` says; other keys change nothing |
| Row.TaskRow.HandleDocumentMouseDown | src/components/TaskRow.tsx:51-60 | the outside-press handler behaves as `Handle` specifies |
| Row.TaskRow.Dispatch | src/components/TaskRow.tsx:90-171 | every event routed through the rendered elements behaves as `Handle` specifies |
| Page.InitialTasks | src/app/page.tsx:6-22 | the start list is empty, the defaults, or exactly what the raw cookie parses to; without a raw cookie it is the defaults exactly before initialization |
| Page.HasRawTasks | src/app/page.tsx:11 | the raw tasks cookie counts exactly when it is present and not empty |
| Page.Initialized | src/app/page.tsx:9 | initialized exactly when the flag cookie is present and holds `"true"` |
| Page.RawArrayShown | src/app/page.tsx:11-13 | a non-empty raw cookie that parses to an array gives that array |
| Page.RawUnusableEmpty | src/app/page.tsx:14-17 | a non-empty raw cookie that parses to a non-array or fails to parse gives nothing |
| Page.DefaultsOnlyBeforeInit | src/app/page.tsx:18-19 | with the raw cookie absent or empty, the defaults appear exactly when the flag is not initialized |
| Page.FlagValueExact | src/app/page.tsx:9 | only the exact value `"true"` counts as initialized |
| Page.FlagIrrelevantWithRaw | src/app/page.tsx:11-18 | with a raw cookie present, setting or removing the flag changes nothing |
| Middleware.Options | middleware.ts:12-18 | both cookies are site-wide, lax, script-readable, kept one year (31536000 s), and secure exactly in production |
| Middleware.ResponseCookies | middleware.ts:5-32 | nothing once the flag exists; otherwise the flag `"true"`, plus the default tasks exactly when no tasks cookie exists either |
| Middleware.Response.constructor | middleware.ts:6 | a fresh response sets no cookies |
| Middleware.Response.Set | middleware.ts:12-27 | setting a cookie records its value and options under its name |
| Middleware.Run | middleware.ts:5-32 | the response's cookies are exactly `ResponseCookies(request, production)` |
| Middleware.NeverOverwrites | middleware.ts:8-28 | no cookie the request already has is set again |
| Middleware.Idempotent | middleware.ts:5-32 | after the browser stores the response, running the middleware again sets nothing |
| Middleware.FirstVisitShowsDefaults | middleware.ts:20-27 | a first visit starts from the defaults, whether the page sees the request's cookies or the stored ones |
| Middleware.DefaultsNeverReintroduced | middleware.ts:11 | once initialized, a missing or empty tasks cookie gives an empty list and the middleware seeds nothing |
| Middleware.VisitInitializes | middleware.ts:11-18 | after a visit, the stored flag counts as initialized unless it already held another value |

## Findings

| source | as written | input that shows it | evidently intended | confidence | as-written member | corrected member |
|---|---|---|---|---|---|---|
| src/app/tasks-client.tsx:261 | `onPrev` steps back from the stored `currentPage`, which deletions (lines 108-116, 142-148) never lower | eleven tasks, page three shown, its one task deleted: two pages remain, page two is shown, and Prev sets the stored page to two, so the shown page stays two | Prev steps back from the page shown (`current`) | medium, not executed | Client.PrevFromStalePage, Client.StalePageAfterDeletion, Client.TasksClient.PrevPage | Client.StepBack, Client.TasksClient.PrevShownPage |

## Left out

- Cookie I/O is not modelled. This covers the effect that writes the tasks cookie after every change (src/app/tasks-client.tsx:54-63), with its encoding and expiry date. It also covers `cookies()` and `NextResponse`. The jar is a map, and `Middleware.Store` stands for the browser keeping the response's cookies, with no expiry.
- `JSON.parse` and `JSON.stringify` are not modelled. The parse outcome is a parameter. The stored defaults are written out as `Constants.DefaultTasksJson`. An array whose elements are not task records is outside the model, because `Array` carries `Task` values; the page itself does not validate element shape.
- `Math.random` id generation is not modelled. The id is a parameter.
- Client.TasksClient.CreateTask: requires the id to be fresh (not a current task id and not a draft key). The source relies on a random id and does not check it.
- `Date.now()` is the parameter `now`, and `process.env.NODE_ENV` is the parameter `production`.
- `toLowerCase` maps only A–Z. Other Unicode case mappings are not modelled.
- Lengths count Dafny characters (code points), whereas JavaScript counts UTF-16 code units. Titles outside the Basic Multilingual Plane would be measured differently.
- The input's own `maxLength` attribute, which the browser enforces, is not modelled. Only the handlers' pre-flight check is.
- Toasts, framer-motion animation and React's effect scheduling are not modelled. Effects are explicit method calls.
- Focus and caret placement when a row enters edit mode (src/components/TaskRow.tsx:41-48) are not modelled.
- Reading `selectionStart`, `selectionEnd`, the input data and the clipboard text from DOM events is not modelled. These values are parameters.
- Dialog state (`confirmDeleteId`, `confirmBulkOpen`) is not modelled. It only defers `deleteTask` and `deleteSelected` until confirmation.
- The presentational components (toolbar, header, delete dialogs, pagination footer) are not part of this model. Among their details are the toolbar's `allSelected` prop, which is never supplied, and the footer's limit of five page links.
- Clicks on the row's title input are not modelled. A click reaches the row either on the controls or on the row itself.
- Draft records are maps. JavaScript object keys such as `__proto__` behave differently as task ids, and this is not modelled.
- Row.CancelRestoresTitle: the "nothing left to save" half holds only for stored titles without surrounding whitespace. Every title the screen creates or saves is trimmed. A hand-edited cookie could hold an untrimmed one, and that row would then still offer Save after cancelling.
