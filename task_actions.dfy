/**
 * The pure operations on the task list and on the per-id draft record
 * (src/lib/task-actions.ts). The list operations are expressions; the draft
 * builders fill or delete keys of a fresh record inside loops.
 */
module TaskActions {
  import opened Types
  import opened Seqs
  import opened Text

  /** The ids present in a task list. */
  function Ids(tasks: seq<Task>): set<string> {
    set i | 0 <= i < |tasks| :: tasks[i].id
  }

  /** A member's id is among the list's ids. */
  lemma IdOfMember(tasks: seq<Task>, t: Task)
    requires t in tasks
    ensures t.id in Ids(tasks)
  {
    var i :| 0 <= i < |tasks| && tasks[i] == t;
  }

  /** The ids of a task list, position by position (`tasks.map(t => t.id)`). */
  function IdsOf(tasks: seq<Task>): (r: seq<string>)
    ensures |r| == |tasks|
    ensures forall i :: 0 <= i < |tasks| ==> r[i] == tasks[i].id
    ensures forall id :: id in r <==> id in Ids(tasks)
  {
    seq(|tasks|, i requires 0 <= i < |tasks| => tasks[i].id)
  }

  // ---------------------------------------------------------------- the list

  /** `addTask`: the new task goes first, the old list follows unchanged. */
  function AddTask(tasks: seq<Task>, newTask: Task): (r: seq<Task>)
    ensures |r| == |tasks| + 1 && r[0] == newTask && r[1..] == tasks
    ensures Ids(r) == Ids(tasks) + {newTask.id}
  {
    [newTask] + tasks
  }

  /** `updateTaskTitle`: every task whose id matches gets the new title; ids, order and completion stay. */
  function UpdateTaskTitle(tasks: seq<Task>, id: string, title: string): (r: seq<Task>)
    ensures |r| == |tasks|
    ensures forall i :: 0 <= i < |tasks| ==>
      && r[i].id == tasks[i].id
      && r[i].completed == tasks[i].completed
      && r[i].title == (if tasks[i].id == id then title else tasks[i].title)
  {
    seq(|tasks|, i requires 0 <= i < |tasks| =>
      if tasks[i].id == id then tasks[i].(title := title) else tasks[i])
  }

  /** Updating an id that is not in the list gives back the list itself. */
  lemma UpdateTaskTitleMissing(tasks: seq<Task>, id: string, title: string)
    requires id !in Ids(tasks)
    ensures UpdateTaskTitle(tasks, id, title) == tasks
  {
    var r := UpdateTaskTitle(tasks, id, title);
    forall i | 0 <= i < |tasks| ensures r[i] == tasks[i] {
      assert tasks[i].id in Ids(tasks);
    }
  }

  /** Updating a title never changes the set of ids. */
  lemma UpdateTaskTitleKeepsIds(tasks: seq<Task>, id: string, title: string)
    ensures Ids(UpdateTaskTitle(tasks, id, title)) == Ids(tasks)
  {
    var r := UpdateTaskTitle(tasks, id, title);
    forall x | x in Ids(tasks) ensures x in Ids(r) {
      var i :| 0 <= i < |tasks| && tasks[i].id == x;
      assert r[i].id == x;
    }
  }

  /** The filter predicate of `removeTasks`. */
  function NotIn(ids: seq<string>): Task -> bool {
    (t: Task) => t.id !in ids
  }

  /** `removeTasks`: exactly the tasks whose id is not in `ids`, in their original order. */
  function RemoveTasks(tasks: seq<Task>, ids: seq<string>): (r: seq<Task>)
    ensures |r| <= |tasks|
    ensures forall t :: t in r <==> t in tasks && t.id !in ids
  {
    Filter(tasks, NotIn(ids))
  }

  /** Removing from a concatenation removes from each part: order is preserved. */
  lemma RemoveTasksConcat(a: seq<Task>, b: seq<Task>, ids: seq<string>)
    ensures RemoveTasks(a + b, ids) == RemoveTasks(a, ids) + RemoveTasks(b, ids)
  {
    FilterConcat(a, b, NotIn(ids));
  }

  /** Empty or unknown ids change nothing. */
  lemma RemoveTasksUnknown(tasks: seq<Task>, ids: seq<string>)
    requires forall t :: t in tasks ==> t.id !in ids
    ensures RemoveTasks(tasks, ids) == tasks
  {
    FilterAllKept(tasks, NotIn(ids));
  }

  /** Adding a task with a fresh id and then removing that id gives back the original list. */
  lemma RemoveAddRoundTrip(tasks: seq<Task>, t: Task)
    requires t.id !in Ids(tasks)
    ensures RemoveTasks(AddTask(tasks, t), [t.id]) == tasks
  {
    assert AddTask(tasks, t) == [t] + tasks;
    RemoveTasksConcat([t], tasks, [t.id]);
    assert RemoveTasks([t], [t.id]) == [];
    forall u | u in tasks ensures u.id !in [t.id] {
      var i :| 0 <= i < |tasks| && tasks[i] == u;
      assert tasks[i].id in Ids(tasks);
    }
    RemoveTasksUnknown(tasks, [t.id]);
  }

  // -------------------------------------------------------------- the drafts

  /** The draft a task starts with: its stored title and completion. */
  function SeedDraft(t: Task): Draft {
    Draft(t.title, t.completed)
  }

  /** The last task in `tasks` carrying `id`: no later task has that id. */
  function LastWithId(tasks: seq<Task>, id: string): (t: Task)
    requires id in Ids(tasks)
    ensures t in tasks && t.id == id
    ensures exists k :: 0 <= k < |tasks| && tasks[k] == t && forall j :: k < j < |tasks| ==> tasks[j].id != id
  {
    var n := |tasks| - 1;
    if tasks[n].id == id then tasks[n]
    else
      assert id in Ids(tasks[..n]) by {
        var i :| 0 <= i < |tasks| && tasks[i].id == id;
        assert tasks[..n][i].id == id;
      }
      var t := LastWithId(tasks[..n], id);
      assert exists k :: 0 <= k < |tasks| && tasks[k] == t && forall j :: k < j < |tasks| ==> tasks[j].id != id by {
        var k :| 0 <= k < n && tasks[..n][k] == t && forall j :: k < j < n ==> tasks[..n][j].id != id;
        forall j | k < j < |tasks| ensures tasks[j].id != id {
          if j < n { assert tasks[j] == tasks[..n][j]; }
        }
        assert tasks[k] == t;
      }
      t
  }

  /** The first task in `tasks` carrying `id`: no earlier task has that id. */
  function FirstWithId(tasks: seq<Task>, id: string): (t: Task)
    requires id in Ids(tasks)
    ensures t in tasks && t.id == id
    ensures exists k :: 0 <= k < |tasks| && tasks[k] == t && forall j :: 0 <= j < k ==> tasks[j].id != id
  {
    if tasks[0].id == id then tasks[0]
    else
      assert id in Ids(tasks[1..]) by {
        var i :| 0 <= i < |tasks| && tasks[i].id == id;
        assert tasks[1..][i - 1].id == id;
      }
      var t := FirstWithId(tasks[1..], id);
      assert exists k :: 0 <= k < |tasks| && tasks[k] == t && forall j :: 0 <= j < k ==> tasks[j].id != id by {
        var k :| 0 <= k < |tasks| - 1 && tasks[1..][k] == t && forall j :: 0 <= j < k ==> tasks[1..][j].id != id;
        forall j | 0 <= j < k + 1 ensures tasks[j].id != id {
          if j > 0 { assert tasks[j] == tasks[1..][j - 1]; }
        }
        assert tasks[k + 1] == t;
      }
      t
  }

  /** Appending a task adds exactly its id. */
  lemma IdsSnoc(s: seq<Task>, t: Task)
    ensures Ids(s + [t]) == Ids(s) + {t.id}
  {
    var s' := s + [t];
    forall x | x in Ids(s') ensures x in Ids(s) + {t.id} {
      var i :| 0 <= i < |s'| && s'[i].id == x;
      if i < |s| { assert s[i].id == x; }
    }
    forall x | x in Ids(s) ensures x in Ids(s') {
      var i :| 0 <= i < |s| && s[i].id == x;
      assert s'[i].id == x;
    }
    assert s'[|s|].id == t.id;
  }

  /** A non-empty list is its front followed by its last task. */
  lemma IdsFront(tasks: seq<Task>)
    requires tasks != []
    ensures Ids(tasks) == Ids(tasks[..|tasks| - 1]) + {tasks[|tasks| - 1].id}
  {
    var n := |tasks| - 1;
    assert tasks == tasks[..n] + [tasks[n]];
    IdsSnoc(tasks[..n], tasks[n]);
  }

  /**
   * The draft record reconciled with `tasks`: one entry per task id, the
   * previous draft where there was one, otherwise a draft seeded from the
   * task (the last one with that id, as later writes win); drafts of vanished
   * ids are gone. Defined task by task, as the rebuild loop visits them.
   */
  function Reconciled(prev: Drafts, tasks: seq<Task>): (r: Drafts)
    ensures r.Keys == Ids(tasks)
    ensures forall id :: id in r && id in prev ==> r[id] == prev[id]
    ensures forall id :: id in r && id !in prev ==> r[id] == SeedDraft(LastWithId(tasks, id))
    decreases |tasks|
  {
    if tasks == [] then map[]
    else
      var n := |tasks| - 1;
      IdsFront(tasks);
      Reconciled(prev, tasks[..n])[tasks[n].id := if tasks[n].id in prev then prev[tasks[n].id] else SeedDraft(tasks[n])]
  }

  /** `buildDraftsFromTasks`: the loop builds exactly the reconciled record. */
  method BuildDraftsFromTasks(prevDrafts: Drafts, tasks: seq<Task>) returns (next: Drafts)
    ensures next == Reconciled(prevDrafts, tasks)
  {
    next := map[];
    assert tasks[..0] == [];
    for i := 0 to |tasks|
      invariant next == Reconciled(prevDrafts, tasks[..i])
    {
      var t := tasks[i];
      var existing := if t.id in prevDrafts then Some(prevDrafts[t.id]) else None;
      next := next[t.id := if existing.Some? then existing.value else SeedDraft(t)];
      assert tasks[..i + 1][..i] == tasks[..i];
    }
    assert tasks[..|tasks|] == tasks;
  }

  /** Reconciling twice against the same tasks is reconciling once. */
  lemma ReconcileIdempotent(prev: Drafts, tasks: seq<Task>)
    ensures Reconciled(Reconciled(prev, tasks), tasks) == Reconciled(prev, tasks)
  {
  }

  /** Drafts of ids absent from `tasks` have no influence on the reconciled record. */
  lemma ReconcileIgnoresVanished(prev: Drafts, tasks: seq<Task>, gone: set<string>)
    requires gone !! Ids(tasks)
    ensures Reconciled(prev - gone, tasks) == Reconciled(prev, tasks)
  {
  }

  /** A task added under a fresh id gets a draft seeded from it. */
  lemma ReconcileAdded(prev: Drafts, tasks: seq<Task>, t: Task)
    requires t.id !in Ids(tasks) && t.id !in prev
    ensures t.id in Reconciled(prev, AddTask(tasks, t))
    ensures Reconciled(prev, AddTask(tasks, t))[t.id] == SeedDraft(t)
  {
    var u := LastWithId(AddTask(tasks, t), t.id);
    if u != t {
      assert u in tasks;
      IdOfMember(tasks, u);
    }
  }

  /** No removed id is left in the list. */
  lemma RemovedIdsGone(tasks: seq<Task>, ids: seq<string>)
    ensures forall id :: id in ids ==> id !in Ids(RemoveTasks(tasks, ids))
  {
    var r := RemoveTasks(tasks, ids);
    forall id | id in Ids(r) ensures id !in ids {
      var i :| 0 <= i < |r| && r[i].id == id;
      assert r[i] in r;
    }
  }

  /** A non-empty list is its first task followed by the rest. */
  lemma IdsCons(tasks: seq<Task>)
    requires tasks != []
    ensures Ids(tasks) == {tasks[0].id} + Ids(tasks[1..])
  {
    forall x | x in Ids(tasks) ensures x in {tasks[0].id} + Ids(tasks[1..]) {
      var i :| 0 <= i < |tasks| && tasks[i].id == x;
      if i > 0 { assert tasks[1..][i - 1].id == x; }
    }
    forall x | x in Ids(tasks[1..]) ensures x in Ids(tasks) {
      var i :| 0 <= i < |tasks[1..]| && tasks[1..][i].id == x;
      assert tasks[i + 1].id == x;
    }
    assert tasks[0].id in Ids(tasks);
  }

  /** One step of `setDraftCompletedForPage`: the item's entry gets `checked`, keeping its title. */
  function MarkOne(drafts: Drafts, t: Task, checked: bool): Drafts {
    drafts[t.id := Draft(if t.id in drafts then drafts[t.id].title else t.title, checked)]
  }

  /**
   * The record `setDraftCompletedForPage` produces from `drafts`: every page
   * item's entry gets `completed == checked` and keeps its title (seeded from
   * the first page item with that id when there was no entry); every other
   * entry stays. Defined item by item, in page order.
   */
  function CompletedForPage(drafts: Drafts, pageItems: seq<Task>, checked: bool): (r: Drafts)
    ensures r.Keys == drafts.Keys + Ids(pageItems)
    ensures forall id :: id in r && id !in Ids(pageItems) ==> r[id] == drafts[id]
    ensures forall id :: id in Ids(pageItems) ==>
      r[id] == Draft(if id in drafts then drafts[id].title else FirstWithId(pageItems, id).title, checked)
    decreases |pageItems|
  {
    if pageItems == [] then drafts
    else
      IdsCons(pageItems);
      CompletedForPage(MarkOne(drafts, pageItems[0], checked), pageItems[1..], checked)
  }

  /** `setDraftCompletedForPage`: the loop builds exactly `CompletedForPage`. */
  method SetDraftCompletedForPage(drafts: Drafts, pageItems: seq<Task>, checked: bool) returns (next: Drafts)
    ensures next == CompletedForPage(drafts, pageItems, checked)
  {
    next := drafts;
    for i := 0 to |pageItems|
      invariant CompletedForPage(next, pageItems[i..], checked) == CompletedForPage(drafts, pageItems, checked)
    {
      var t := pageItems[i];
      var existing := if t.id in next then next[t.id] else SeedDraft(t);
      assert pageItems[i..][1..] == pageItems[i + 1..];
      next := next[t.id := existing.(completed := checked)];
    }
    assert pageItems[|pageItems|..] == [];
  }

  /**
   * `hasTitleChanged`: a draft exists and its trimmed title differs from the
   * stored one. A task without a draft, or whose draft still holds its own
   * already-trimmed title, is clean.
   */
  function HasTitleChanged(task: Task, drafts: Drafts): (r: bool)
    ensures task.id !in drafts ==> !r
    ensures task.id in drafts ==> (r <==> Trim(drafts[task.id].title) != task.title)
    ensures task.id in drafts && drafts[task.id].title == task.title && Trim(task.title) == task.title ==> !r
  {
    task.id in drafts && Trim(drafts[task.id].title) != task.title
  }

  /** `getDraftCompleted`: the draft's completion if there is a draft, else the stored one. */
  function GetDraftCompleted(task: Task, drafts: Drafts): (r: bool)
    ensures task.id in drafts ==> r == drafts[task.id].completed
    ensures task.id !in drafts ==> r == task.completed
  {
    if task.id in drafts then drafts[task.id].completed else task.completed
  }

  /**
   * The rebuild never changes what a checkbox shows: a task keeps its
   * effective completion, except a task shadowed by a later one with the
   * same id and no draft, which then shows the later task's flag.
   */
  lemma RebuildKeepsCompletion(prev: Drafts, tasks: seq<Task>, t: Task)
    requires t in tasks
    requires t.id in prev || LastWithId(tasks, t.id) == t
    ensures GetDraftCompleted(t, Reconciled(prev, tasks)) == GetDraftCompleted(t, prev)
  {
    IdOfMember(tasks, t);
  }

  /** After marking a page, every page item is effectively `checked`, and titles are untouched. */
  lemma CompletedForPageMarksEveryItem(drafts: Drafts, pageItems: seq<Task>, checked: bool)
    ensures var r := CompletedForPage(drafts, pageItems, checked);
      forall t :: t in pageItems ==>
        GetDraftCompleted(t, r) == checked && (t.id in drafts ==> r[t.id].title == drafts[t.id].title)
  {
    forall t | t in pageItems ensures t.id in Ids(pageItems) {
      var i :| 0 <= i < |pageItems| && pageItems[i] == t;
    }
  }

  /** Completion, stored or drafted, never counts as a title change. */
  lemma HasTitleChangedIgnoresCompleted(task: Task, drafts: Drafts, stored: bool, drafted: bool)
    requires task.id in drafts
    ensures HasTitleChanged(task.(completed := stored), drafts[task.id := drafts[task.id].(completed := drafted)])
      == HasTitleChanged(task, drafts)
  {
  }

  /** The selection predicate: effectively completed. */
  function IsSelected(drafts: Drafts): Task -> bool {
    (t: Task) => GetDraftCompleted(t, drafts)
  }

  /** The page items that are effectively completed, in page order. */
  function Selected(pageItems: seq<Task>, drafts: Drafts): (r: seq<Task>)
    ensures forall t :: t in r <==> t in pageItems && GetDraftCompleted(t, drafts)
  {
    Filter(pageItems, IsSelected(drafts))
  }

  /** Reconciling after a bulk delete keeps every surviving draft as it was. */
  lemma ReconcileAfterDeletion(tasks: seq<Task>, drafts: Drafts, sel: seq<Task>)
    ensures var rest := RemoveTasks(tasks, IdsOf(sel));
      Reconciled(drafts - Ids(sel), rest) == Reconciled(drafts, rest)
  {
    RemovedIdsGone(tasks, IdsOf(sel));
    ReconcileIgnoresVanished(drafts, RemoveTasks(tasks, IdsOf(sel)), Ids(sel));
  }

  /** The outcome of `deleteSelectedOnPage`. */
  datatype Deletion = Deletion(tasks: seq<Task>, drafts: Drafts, deletedCount: nat)

  /**
   * `deleteSelectedOnPage`: with nothing selected on the page, the inputs come
   * back unchanged with a count of zero; otherwise the selected ids leave both
   * the list and the draft record, and the count is the number of selected
   * page items.
   */
  method DeleteSelectedOnPage(tasks: seq<Task>, drafts: Drafts, pageItems: seq<Task>) returns (r: Deletion)
    ensures Selected(pageItems, drafts) == [] ==> r == Deletion(tasks, drafts, 0)
    ensures Selected(pageItems, drafts) != [] ==>
      var sel := Selected(pageItems, drafts);
      && r.deletedCount == |sel| > 0
      && r.tasks == RemoveTasks(tasks, IdsOf(sel))
      && r.drafts == drafts - Ids(sel)
  {
    var idsToDelete := IdsOf(Selected(pageItems, drafts));
    if |idsToDelete| == 0 {
      return Deletion(tasks, drafts, 0);
    }
    var nextTasks := RemoveTasks(tasks, idsToDelete);
    var nextDrafts := drafts;
    for i := 0 to |idsToDelete|
      invariant nextDrafts == drafts - Elements(idsToDelete[..i])
    {
      nextDrafts := nextDrafts - {idsToDelete[i]};
      assert Elements(idsToDelete[..i + 1]) == Elements(idsToDelete[..i]) + {idsToDelete[i]} by {
        assert idsToDelete[..i + 1] == idsToDelete[..i] + [idsToDelete[i]];
      }
    }
    assert idsToDelete[..|idsToDelete|] == idsToDelete;
    r := Deletion(nextTasks, nextDrafts, |idsToDelete|);
  }
}
