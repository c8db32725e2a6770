/**
 * The task-list screen (src/app/tasks-client.tsx): the state it holds, the
 * handlers that update it, and the values it derives for display.
 */
module Client {
  import opened Types
  import opened Seqs
  import opened Text
  import opened Constants
  import opened TaskActions
  import opened TaskHelpers

  // ------------------------------------------------------------- search

  /** The search predicate: the lower-cased title contains `q`. */
  function TitleContains(q: string): Task -> bool {
    (t: Task) => Contains(ToLower(t.title), q)
  }

  /**
   * `filtered`: a query that is blank after trimming keeps the list as it is;
   * otherwise exactly the tasks whose lower-cased title contains the trimmed,
   * lower-cased query.
   */
  function SearchTasks(tasks: seq<Task>, query: string): (r: seq<Task>)
    ensures |r| <= |tasks|
    ensures Trim(query) == [] ==> r == tasks
    ensures Trim(query) != [] ==>
      forall t :: t in r <==> t in tasks && Contains(ToLower(t.title), ToLower(Trim(query)))
  {
    var q := ToLower(Trim(query));
    if q == [] then tasks else Filter(tasks, TitleContains(q))
  }

  /** Searching a concatenation searches each part: matches keep their relative order. */
  lemma SearchTasksConcat(a: seq<Task>, b: seq<Task>, query: string)
    ensures SearchTasks(a + b, query) == SearchTasks(a, query) + SearchTasks(b, query)
  {
    var q := ToLower(Trim(query));
    if q != [] {
      FilterConcat(a, b, TitleContains(q));
    }
  }

  // --------------------------------------------------------- pagination

  /** A page number: pages are numbered from one. */
  type PageNumber = p: int | p >= 1 witness 1

  /** `totalPages`: the fewest pages of `PageSize` that hold `n` items, and never fewer than one. */
  function PageCount(n: nat): (r: PageNumber)
    ensures n <= r * PageSize
    ensures r == 1 || (r - 1) * PageSize < n
  {
    Max(1, (n + PageSize - 1) / PageSize)
  }

  /** `current`: the stored page, capped at the last page. */
  function ClampPage(page: PageNumber, total: PageNumber): (r: PageNumber)
    ensures r <= page && r <= total
    ensures r == page || r == total
  {
    if page <= total then page else total
  }

  /** `Array.prototype.slice` with non-negative bounds: out-of-range ends are clamped. */
  function Slice(s: seq<Task>, from: nat, to: nat): (r: seq<Task>)
    ensures from <= |s| ==> |r| == (if to <= |s| then to else |s|) - from || (to < from && r == [])
    ensures from >= |s| ==> r == []
    ensures forall i :: 0 <= i < |r| ==> from + i < |s| && r[i] == s[from + i]
  {
    var a := if from <= |s| then from else |s|;
    var b := if to <= |s| then to else |s|;
    if a <= b then s[a..b] else []
  }

  /** `pageItems`: at most `PageSize` consecutive items, starting at the first item of page `current`. */
  function PageSlice(items: seq<Task>, current: PageNumber): (r: seq<Task>)
    ensures |r| <= PageSize
    ensures (current - 1) * PageSize <= |items| ==>
      |r| == (if |items| - (current - 1) * PageSize < PageSize then |items| - (current - 1) * PageSize else PageSize)
    ensures forall i :: 0 <= i < |r| ==>
      (current - 1) * PageSize + i < |items| && r[i] == items[(current - 1) * PageSize + i]
  {
    var start := (current - 1) * PageSize;
    Slice(items, start, start + PageSize)
  }

  /** The page actually shown is never empty while there is something to show. */
  lemma ShownPageNonEmpty(items: seq<Task>, page: PageNumber)
    requires |items| > 0
    ensures PageSlice(items, ClampPage(page, PageCount(|items|))) != []
  {
    var total := PageCount(|items|);
    var current := ClampPage(page, total);
    assert (current - 1) * PageSize <= (total - 1) * PageSize;
  }

  /** Item `i` is shown on page `i / PageSize + 1`, which exists. */
  lemma ItemOnItsPage(items: seq<Task>, i: int)
    requires 0 <= i < |items|
    ensures i / PageSize + 1 <= PageCount(|items|)
    ensures var page := PageSlice(items, i / PageSize + 1);
      i % PageSize < |page| && page[i % PageSize] == items[i]
  {
    var p := i / PageSize + 1;
    var total := PageCount(|items|);
    assert (p - 1) * PageSize + i % PageSize == i;
  }

  /**
   * Stepping back from a stored page that lies beyond the last page (as a
   * deletion can leave it) does not change the page shown while the stored
   * page is still past the last one.
   */
  lemma PrevFromStalePage(page: PageNumber, total: PageNumber)
    requires page > total
    ensures ClampPage(Max(1, page - 1), total) == ClampPage(page, total) == total
  {
  }

  /** Eleven tasks on page three; deleting the eleventh leaves two pages, and Prev keeps showing page two. */
  lemma StalePageAfterDeletion()
    ensures PageCount(11) == 3 && PageCount(10) == 2
    ensures ClampPage(Max(1, 3 - 1), PageCount(10)) == ClampPage(3, PageCount(10)) == 2
  {
  }

  /** Stepping back from the page shown: the shown page moves back by one, never below the first. */
  function StepBack(page: PageNumber, total: PageNumber): (r: PageNumber)
    ensures ClampPage(r, total) == Max(1, ClampPage(page, total) - 1)
    ensures ClampPage(page, total) > 1 ==> ClampPage(r, total) < ClampPage(page, total)
  {
    Max(1, ClampPage(page, total) - 1)
  }

  // ---------------------------------------------------------- selection

  /** `hasSelectionOnPage`: some page item is effectively completed, so the page is not empty. */
  function HasSelection(pageItems: seq<Task>, drafts: Drafts): (r: bool)
    ensures r <==> exists t :: t in pageItems && GetDraftCompleted(t, drafts)
    ensures r ==> pageItems != []
  {
    exists i :: 0 <= i < |pageItems| && GetDraftCompleted(pageItems[i], drafts)
  }

  /** The bulk-delete dialog's `disabled`: every page item is effectively not completed, i.e. nothing is selected. */
  function BulkDeleteDisabled(pageItems: seq<Task>, drafts: Drafts): (r: bool)
    ensures r <==> !HasSelection(pageItems, drafts)
  {
    forall i :: 0 <= i < |pageItems| ==> !GetDraftCompleted(pageItems[i], drafts)
  }

  /** The selection shown, the dialog's guard, and what bulk delete removes all agree. */
  lemma SelectionAgrees(pageItems: seq<Task>, drafts: Drafts)
    ensures BulkDeleteDisabled(pageItems, drafts) <==> !HasSelection(pageItems, drafts)
    ensures HasSelection(pageItems, drafts) <==> Selected(pageItems, drafts) != []
    ensures pageItems == [] ==> !HasSelection(pageItems, drafts)
  {
    if HasSelection(pageItems, drafts) {
      var i :| 0 <= i < |pageItems| && GetDraftCompleted(pageItems[i], drafts);
      assert pageItems[i] in Selected(pageItems, drafts);
    }
    if Selected(pageItems, drafts) != [] {
      var t := Selected(pageItems, drafts)[0];
      assert t in Selected(pageItems, drafts);
      assert t in pageItems && GetDraftCompleted(t, drafts);
      var i :| 0 <= i < |pageItems| && pageItems[i] == t;
    }
  }

  // -------------------------------------------------------- draft edits

  /** The title shown in a row: the draft's if there is one, else the stored one. */
  function ShownTitle(task: Task, drafts: Drafts): (r: string)
    ensures task.id in drafts ==> r == drafts[task.id].title
    ensures task.id !in drafts ==> r == task.title
  {
    if task.id in drafts then drafts[task.id].title else task.title
  }

  /**
   * `canSave` for a row: the shown title is valid and differs (trimmed) from
   * the stored one. So Save is offered exactly for a drafted title that is
   * valid and whose trimmed form is new.
   */
  function CanSave(task: Task, drafts: Drafts): (r: bool)
    ensures r ==> task.id in drafts && Trim(drafts[task.id].title) != task.title
    ensures r ==> MinTitle <= |drafts[task.id].title|
    ensures (task.id in drafts && IsValidTitle(drafts[task.id].title, MinTitle, MaxTitle)
             && Trim(drafts[task.id].title) != task.title) ==> r
  {
    IsValidTitle(ShownTitle(task, drafts), MinTitle, MaxTitle) && HasTitleChanged(task, drafts)
  }

  /** An enabled Save commits: the draft exists and its trimmed title passes the check `saveTask` makes. */
  lemma CanSaveCommits(task: Task, drafts: Drafts)
    ensures CanSave(task, drafts) ==>
      task.id in drafts && IsValidTitle(Trim(drafts[task.id].title), MinTitle, MaxTitle)
    ensures task.id !in drafts ==> !CanSave(task, drafts)
  {
    if task.id in drafts {
      IsValidTitleTrim(drafts[task.id].title, MinTitle, MaxTitle);
    }
  }

  /** `setDraftTitle`'s update: only the title of `id` changes; an absent draft starts as not completed. */
  function WithDraftTitle(drafts: Drafts, id: string, title: string): (r: Drafts)
    ensures r.Keys == drafts.Keys + {id}
    ensures r[id] == Draft(title, id in drafts && drafts[id].completed)
    ensures forall k :: k in drafts && k != id ==> r[k] == drafts[k]
  {
    var base := if id in drafts then drafts[id] else Draft("", false);
    drafts[id := base.(title := title)]
  }

  /** `toggleDraftCompleted`'s update: only the completion of `id` flips; an absent draft counts as not completed. */
  function WithToggledCompleted(drafts: Drafts, id: string): (r: Drafts)
    ensures r.Keys == drafts.Keys + {id}
    ensures r[id] == Draft(if id in drafts then drafts[id].title else "", !(id in drafts && drafts[id].completed))
    ensures forall k :: k in drafts && k != id ==> r[k] == drafts[k]
  {
    var base := if id in drafts then drafts[id] else Draft("", false);
    drafts[id := base.(completed := !(id in drafts && drafts[id].completed))]
  }

  /** Toggling an existing draft twice restores the record. */
  lemma ToggleTwice(drafts: Drafts, id: string)
    requires id in drafts
    ensures WithToggledCompleted(WithToggledCompleted(drafts, id), id) == drafts
  {
    var once := WithToggledCompleted(drafts, id);
    var twice := WithToggledCompleted(once, id);
    assert twice.Keys == drafts.Keys;
    assert twice[id] == drafts[id];
  }

  /** Editing a draft title never touches effective completion. */
  lemma DraftTitleKeepsCompletion(drafts: Drafts, id: string, title: string, t: Task)
    requires id in drafts || t.id != id || !t.completed
    ensures GetDraftCompleted(t, WithDraftTitle(drafts, id, title)) == GetDraftCompleted(t, drafts)
  {
  }

  // --------------------------------------------------- max-length notice

  /** The notice is shown at most once per this many milliseconds. */
  const NoticeCooldown: int := 1000

  /** Whether a notice requested at `now` is shown, given the time of the last one shown. */
  function NoticeDue(lastAt: int, now: int): (r: bool)
    ensures r <==> now - lastAt >= NoticeCooldown
    ensures r ==> now > lastAt
  {
    !(now - lastAt < NoticeCooldown)
  }

  /** The times at which notices are shown over a run of requests made at `nows`. */
  function NoticeTimes(lastAt: int, nows: seq<int>): (r: seq<int>)
    ensures |r| <= |nows|
    ensures forall x :: x in r ==> x in nows
    decreases |nows|
  {
    if nows == [] then []
    else if NoticeDue(lastAt, nows[0]) then [nows[0]] + NoticeTimes(nows[0], nows[1..])
    else NoticeTimes(lastAt, nows[1..])
  }

  /** Shown notices are at least the cooldown apart, and the first one is the cooldown after the last one before. */
  lemma {:induction false} NoticeTimesSpaced(lastAt: int, nows: seq<int>)
    ensures var r := NoticeTimes(lastAt, nows);
      && (r != [] ==> r[0] - lastAt >= NoticeCooldown)
      && forall i :: 0 <= i < |r| - 1 ==> r[i + 1] - r[i] >= NoticeCooldown
    decreases |nows|
  {
    if nows != [] {
      if NoticeDue(lastAt, nows[0]) {
        NoticeTimesSpaced(nows[0], nows[1..]);
        var rest := NoticeTimes(nows[0], nows[1..]);
        var r := [nows[0]] + rest;
        forall i | 0 <= i < |r| - 1 ensures r[i + 1] - r[i] >= NoticeCooldown {
          if i > 0 {
            assert r[i] == rest[i - 1] && r[i + 1] == rest[i];
          }
        }
      } else {
        NoticeTimesSpaced(lastAt, nows[1..]);
      }
    }
  }

  // ------------------------------------------------------------- saving

  /**
   * After a valid save the row is clean: the stored title is the trimmed
   * draft title and the draft survives the rebuild, so nothing is left to save.
   */
  lemma SaveClearsDirty(tasks: seq<Task>, drafts: Drafts, id: string)
    requires id in drafts
    ensures var title := Trim(drafts[id].title);
      var saved := UpdateTaskTitle(tasks, id, title);
      forall t :: t in saved && t.id == id ==>
        !HasTitleChanged(t, Reconciled(drafts, saved)) && !CanSave(t, Reconciled(drafts, saved))
  {
    var title := Trim(drafts[id].title);
    var saved := UpdateTaskTitle(tasks, id, title);
    var next := Reconciled(drafts, saved);
    forall t | t in saved && t.id == id
      ensures !HasTitleChanged(t, next) && !CanSave(t, next)
    {
      IdOfMember(saved, t);
      var i :| 0 <= i < |saved| && saved[i] == t;
      assert t.title == title;
      assert next[id] == drafts[id];
    }
  }

  // -------------------------------------------------------------- state

  /** The state the screen keeps between events. */
  class TasksClient {
    var tasks: seq<Task>
    var query: string
    var newTitle: string
    var currentPage: PageNumber
    var drafts: Drafts
    var lastMaxNoticeAt: int

    /** Every task has a draft. */
    ghost predicate Valid()
      reads this`tasks, this`drafts
    {
      Ids(tasks) <= drafts.Keys
    }

    /** Mount: the initial list, no query, page one, and drafts seeded by the rebuild effect. */
    constructor (initialTasks: seq<Task>)
      ensures Valid()
      ensures tasks == initialTasks && drafts == Reconciled(map[], initialTasks)
      ensures query == "" && newTitle == "" && currentPage == 1 && lastMaxNoticeAt == 0
    {
      tasks := initialTasks;
      query := "";
      newTitle := "";
      currentPage := 1;
      drafts := map[];
      lastMaxNoticeAt := 0;
      new;
      RebuildDrafts();
    }

    /** The `initialTasks` effect: a non-empty list from the server replaces the tasks. */
    method ReceiveInitialTasks(initialTasks: seq<Task>)
      requires Valid()
      modifies this`tasks, this`drafts
      ensures Valid()
      ensures initialTasks == [] ==> tasks == old(tasks) && drafts == old(drafts)
      ensures initialTasks != [] ==> tasks == initialTasks && drafts == Reconciled(old(drafts), tasks)
    {
      if |initialTasks| == 0 {
        return;
      }
      tasks := initialTasks;
      RebuildDrafts();
    }

    /** The rebuild effect, run after every change to `tasks`. */
    method RebuildDrafts()
      modifies this`drafts
      ensures drafts == Reconciled(old(drafts), tasks)
    {
      drafts := BuildDraftsFromTasks(drafts, tasks);
    }

    // The derived view.

    /** `filtered`: the tasks matching the query, never more than there are. */
    function Filtered(): (r: seq<Task>)
      reads this`tasks, this`query
      ensures |r| <= |tasks|
      ensures forall t :: t in r ==> t in tasks
    {
      SearchTasks(tasks, query)
    }

    /** `totalPages`: just enough pages for the matching tasks, and at least one. */
    function TotalPages(): (r: PageNumber)
      reads this`tasks, this`query
      ensures |Filtered()| <= r * PageSize
      ensures r == 1 || (r - 1) * PageSize < |Filtered()|
    {
      PageCount(|Filtered()|)
    }

    /** `current`: the stored page, or the last page when the stored one lies beyond it. */
    function Current(): (r: PageNumber)
      reads this`tasks, this`query, this`currentPage
      ensures r <= currentPage && r <= TotalPages()
      ensures r == currentPage || r == TotalPages()
    {
      ClampPage(currentPage, TotalPages())
    }

    /** `pageItems`: at most a page of tasks, all of them in the list. */
    function PageItems(): (r: seq<Task>)
      reads this`tasks, this`query, this`currentPage
      ensures |r| <= PageSize
      ensures forall t :: t in r ==> t in tasks
    {
      PageSlice(Filtered(), Current())
    }

    /** `hasSelectionOnPage`: bulk delete would remove something from the shown page. */
    function HasSelectionOnPage(): (r: bool)
      reads this`tasks, this`query, this`currentPage, this`drafts
      ensures r <==> Selected(PageItems(), drafts) != []
    {
      SelectionAgrees(PageItems(), drafts);
      HasSelection(PageItems(), drafts)
    }

    // The handlers.

    /** `createTask`, with `id` standing for a freshly generated id. */
    method CreateTask(id: string) returns (created: bool)
      requires Valid()
      requires id !in Ids(tasks) && id !in drafts
      modifies this`tasks, this`newTitle, this`drafts
      ensures Valid()
      ensures created == IsValidTitle(Trim(old(newTitle)), MinTitle, MaxTitle)
      ensures !created ==> tasks == old(tasks) && newTitle == old(newTitle) && drafts == old(drafts)
      ensures created ==>
        && tasks == AddTask(old(tasks), Task(id, Trim(old(newTitle)), false))
        && newTitle == ""
        && drafts == Reconciled(old(drafts), tasks)
        && drafts[id] == Draft(Trim(old(newTitle)), false)
    {
      var title := Trim(newTitle);
      if !IsValidTitle(title, MinTitle, MaxTitle) {
        return false;
      }
      var task := Task(id, title, false);
      ReconcileAdded(drafts, tasks, task);
      tasks := AddTask(tasks, task);
      newTitle := "";
      RebuildDrafts();
      created := true;
    }

    /** `onNewTitleChange`. */
    method SetNewTitle(value: string)
      modifies this`newTitle
      ensures newTitle == value
    {
      newTitle := value;
    }

    /** `onQueryChange`: a new query starts again at page one. */
    method SetQuery(value: string)
      modifies this`query, this`currentPage
      ensures query == value && currentPage == 1
    {
      query := value;
      currentPage := 1;
    }

    /** `onClear`. */
    method ClearQuery()
      modifies this`query, this`currentPage
      ensures query == "" && currentPage == 1
    {
      query := "";
      currentPage := 1;
    }

    /** `setDraftTitle`. */
    method SetDraftTitle(id: string, title: string)
      requires Valid()
      modifies this`drafts
      ensures Valid()
      ensures drafts == WithDraftTitle(old(drafts), id, title)
      ensures forall t :: t in tasks ==> GetDraftCompleted(t, drafts) == GetDraftCompleted(t, old(drafts))
    {
      drafts := WithDraftTitle(drafts, id, title);
    }

    /** `toggleDraftCompleted`. */
    method ToggleDraftCompleted(id: string)
      requires Valid()
      modifies this`drafts
      ensures Valid()
      ensures drafts == WithToggledCompleted(old(drafts), id)
      ensures forall t :: t in tasks && t.id == id ==> GetDraftCompleted(t, drafts) == !GetDraftCompleted(t, old(drafts))
      ensures forall t :: t in tasks && t.id != id ==> GetDraftCompleted(t, drafts) == GetDraftCompleted(t, old(drafts))
    {
      drafts := WithToggledCompleted(drafts, id);
    }

    /** `deleteTask`: the id leaves both the list and the drafts. */
    method DeleteTask(id: string)
      requires Valid()
      modifies this`tasks, this`drafts
      ensures Valid()
      ensures tasks == RemoveTasks(old(tasks), [id])
      ensures drafts == Reconciled(old(drafts), tasks)
      ensures id !in drafts && drafts.Keys == Ids(tasks)
    {
      tasks := RemoveTasks(tasks, [id]);
      drafts := drafts - {id};
      RebuildDrafts();
      ReconcileIgnoresVanished(old(drafts), tasks, {id});
    }

    /** `saveTask`: commits the trimmed draft title when it is valid; the row is then no longer dirty. */
    method SaveTask(id: string) returns (saved: bool)
      requires Valid()
      modifies this`tasks, this`drafts
      ensures Valid()
      ensures saved == (id in old(drafts) && IsValidTitle(Trim(old(drafts)[id].title), MinTitle, MaxTitle))
      ensures !saved ==> tasks == old(tasks) && drafts == old(drafts)
      ensures saved ==>
        && tasks == UpdateTaskTitle(old(tasks), id, Trim(old(drafts)[id].title))
        && drafts == Reconciled(old(drafts), tasks)
        && forall t :: t in tasks && t.id == id ==> !HasTitleChanged(t, drafts) && !CanSave(t, drafts)
    {
      if id !in drafts {
        return false;
      }
      var title := Trim(drafts[id].title);
      if !IsValidTitle(title, MinTitle, MaxTitle) {
        return false;
      }
      SaveClearsDirty(tasks, drafts, id);
      tasks := UpdateTaskTitle(tasks, id, title);
      RebuildDrafts();
      saved := true;
    }

    /** `setPageCompleted`: marks or clears every item on the shown page. */
    method SetPageCompleted(checked: bool)
      requires Valid()
      modifies this`drafts
      ensures Valid()
      ensures drafts == CompletedForPage(old(drafts), old(PageItems()), checked)
    {
      var items := PageItems();
      drafts := SetDraftCompletedForPage(drafts, items, checked);
    }

    /** `deleteSelected`: removes the selected items of the shown page, or changes nothing when there are none. */
    method DeleteSelected() returns (deletedCount: nat)
      requires Valid()
      modifies this`tasks, this`drafts
      ensures Valid()
      ensures deletedCount > 0 <==> old(HasSelectionOnPage())
      ensures deletedCount == 0 ==> tasks == old(tasks) && drafts == old(drafts)
      ensures deletedCount > 0 ==>
        var sel := Selected(old(PageItems()), old(drafts));
        && deletedCount == |sel|
        && tasks == RemoveTasks(old(tasks), IdsOf(sel))
        && drafts == Reconciled(old(drafts), tasks)
    {
      var items := PageItems();
      SelectionAgrees(items, drafts);
      var result := DeleteSelectedOnPage(tasks, drafts, items);
      if result.deletedCount == 0 {
        return 0;
      }
      ReconcileAfterDeletion(tasks, drafts, Selected(items, drafts));
      tasks := result.tasks;
      drafts := result.drafts;
      RebuildDrafts();
      deletedCount := result.deletedCount;
    }

    /** `showMaxExceededToast`: shown only when the cooldown has passed, and only then remembered. */
    method ShowMaxExceededNotice(now: int) returns (shown: bool)
      modifies this`lastMaxNoticeAt
      ensures shown == NoticeDue(old(lastMaxNoticeAt), now)
      ensures lastMaxNoticeAt == if shown then now else old(lastMaxNoticeAt)
    {
      if now - lastMaxNoticeAt < NoticeCooldown {
        return false;
      }
      lastMaxNoticeAt := now;
      shown := true;
    }

    /** `onBeforeInputNew`: typed text that would overflow the new title is refused. */
    method BeforeInputNew(data: Option<string>, selectionStart: Option<int>, selectionEnd: Option<int>, now: int)
      returns (prevented: bool)
      modifies this`lastMaxNoticeAt
      ensures prevented == (data.Some? && data.value != []
        && WillExceedMax(newTitle, data.value, selectionStart, selectionEnd, MaxTitle))
      ensures lastMaxNoticeAt == if prevented && NoticeDue(old(lastMaxNoticeAt), now) then now else old(lastMaxNoticeAt)
    {
      prevented := data.Some? && data.value != []
        && WillExceedMax(newTitle, data.value, selectionStart, selectionEnd, MaxTitle);
      if prevented {
        var shown := ShowMaxExceededNotice(now);
      }
    }

    /** `onPasteNew`: pasted text that would overflow the new title is refused. */
    method PasteNew(text: string, selectionStart: Option<int>, selectionEnd: Option<int>, now: int)
      returns (prevented: bool)
      modifies this`lastMaxNoticeAt
      ensures prevented == WillExceedMax(newTitle, text, selectionStart, selectionEnd, MaxTitle)
      ensures lastMaxNoticeAt == if prevented && NoticeDue(old(lastMaxNoticeAt), now) then now else old(lastMaxNoticeAt)
    {
      prevented := WillExceedMax(newTitle, text, selectionStart, selectionEnd, MaxTitle);
      if prevented {
        var shown := ShowMaxExceededNotice(now);
      }
    }

    /** A row's `onBeforeInput`: typed text that would overflow the shown title is refused. */
    method BeforeInputRow(task: Task, data: Option<string>, selectionStart: Option<int>, selectionEnd: Option<int>, now: int)
      returns (prevented: bool)
      modifies this`lastMaxNoticeAt
      ensures prevented == (data.Some? && data.value != []
        && WillExceedMax(ShownTitle(task, drafts), data.value, selectionStart, selectionEnd, MaxTitle))
      ensures lastMaxNoticeAt == if prevented && NoticeDue(old(lastMaxNoticeAt), now) then now else old(lastMaxNoticeAt)
    {
      var current := ShownTitle(task, drafts);
      prevented := data.Some? && data.value != []
        && WillExceedMax(current, data.value, selectionStart, selectionEnd, MaxTitle);
      if prevented {
        var shown := ShowMaxExceededNotice(now);
      }
    }

    /** A row's `onPaste`: pasted text that would overflow the shown title is refused. */
    method PasteRow(task: Task, text: string, selectionStart: Option<int>, selectionEnd: Option<int>, now: int)
      returns (prevented: bool)
      modifies this`lastMaxNoticeAt
      ensures prevented == WillExceedMax(ShownTitle(task, drafts), text, selectionStart, selectionEnd, MaxTitle)
      ensures lastMaxNoticeAt == if prevented && NoticeDue(old(lastMaxNoticeAt), now) then now else old(lastMaxNoticeAt)
    {
      var current := ShownTitle(task, drafts);
      prevented := WillExceedMax(current, text, selectionStart, selectionEnd, MaxTitle);
      if prevented {
        var shown := ShowMaxExceededNotice(now);
      }
    }

    /** `onPrev`: one page back, never below the first. */
    method PrevPage()
      modifies this`currentPage
      ensures currentPage == Max(1, old(currentPage) - 1)
    {
      currentPage := Max(1, currentPage - 1);
    }

    /** `onPrev`, stepping back from the page shown rather than the page stored. */
    method PrevShownPage()
      modifies this`currentPage
      ensures currentPage == StepBack(old(currentPage), TotalPages())
      ensures old(Current()) > 1 ==> Current() == old(Current()) - 1
    {
      currentPage := StepBack(currentPage, TotalPages());
    }

    /** `onNext`: one page on, never past the last. */
    method NextPage()
      modifies this`currentPage
      ensures currentPage == (if old(currentPage) + 1 <= TotalPages() then old(currentPage) + 1 else TotalPages())
      ensures 1 <= currentPage <= TotalPages()
    {
      var total := TotalPages();
      currentPage := if total <= currentPage + 1 then total else currentPage + 1;
    }

    /** `onGoto`: the pagination footer passes a page number from one upwards. */
    method GotoPage(page: PageNumber)
      modifies this`currentPage
      ensures currentPage == page
    {
      currentPage := page;
    }
  }
}
