/** The vital-task page (src/components/VitalTask.js): a list of tasks with checklists,
    a search filter fed by the dashboard's search box, one selected task shown in
    detail, and the handlers that delete, replace and tick items of tasks. */
module VitalTasks {
  import opened Options
  import opened Text
  import opened Lists

  datatype ChecklistItem = ChecklistItem(id: int, text: string, completed: bool)

  datatype Task = Task(id: int, title: string, description: string, fullDescription: string,
                       priority: string, status: string, createdOn: string, image: string,
                       checklist: seq<ChecklistItem>)

  function TaskId(t: Task): int { t.id }

  function ItemId(c: ChecklistItem): int { c.id }

  /** The search test: the title or the description contains the term, ignoring case. */
  predicate Matches(t: Task, term: string) {
    IncludesFolded(t.title, term) || IncludesFolded(t.description, term)
  }

  function MatchesTerm(term: string): Task -> bool {
    (t: Task) => Matches(t, term)
  }

  /** `filteredTasks`: the tasks that match, in their order; the empty term keeps them all. */
  function FilteredTasks(tasks: seq<Task>, term: string): (r: seq<Task>)
    ensures forall t :: t in r <==> t in tasks && Matches(t, term)
    ensures forall t :: multiset(r)[t] == if Matches(t, term) then multiset(tasks)[t] else 0
    ensures IsSubsequence(r, tasks)
    ensures term == "" ==> r == tasks
  {
    FilterIsSubsequence(tasks, MatchesTerm(term));
    if term == "" then
      FilterKeepsAll(tasks, MatchesTerm(term));
      Filter(tasks, MatchesTerm(term))
    else Filter(tasks, MatchesTerm(term))
  }

  /** The selection effect as written: with no selection and some visible task, select the
      first one; with a selection no visible task shares the id of, move to the first
      visible task or to none. Whatever the order of the two tests, the outcome is the
      settled selection: the current one if it is settled, else the first visible task. */
  function Reselect(filtered: seq<Task>, selected: Option<Task>): (r: Option<Task>)
    ensures r == if Settled(filtered, TaskId, selected) then selected else First(filtered)
    ensures Settled(filtered, TaskId, r)
  {
    FirstSettles(filtered, TaskId);
    if |filtered| > 0 && selected.None? then Some(filtered[0])
    else if selected.Some? && Find(filtered, SameKey(TaskId, selected.value.id)).None? then
      First(filtered)
    else selected
  }

  /** Once settled, the effect changes nothing more: running it again is a no-op. */
  lemma ReselectIdempotent(filtered: seq<Task>, selected: Option<Task>)
    ensures Reselect(filtered, Reselect(filtered, selected)) == Reselect(filtered, selected)
  {
  }

  /** Ticking item `itemId` of one checklist: only that item's `completed` flips. */
  function ToggleItems(items: seq<ChecklistItem>, itemId: int): (r: seq<ChecklistItem>)
    ensures |r| == |items|
    ensures forall i :: 0 <= i < |items| ==>
      r[i] == if items[i].id == itemId then items[i].(completed := !items[i].completed) else items[i]
  {
    MapWhere(items, SameKey(ItemId, itemId), Flip)
  }

  function Flip(c: ChecklistItem): ChecklistItem {
    c.(completed := !c.completed)
  }

  function ToggleIn(itemId: int): Task -> Task {
    (t: Task) => t.(checklist := ToggleItems(t.checklist, itemId))
  }

  /** The new task list of `handleToggleChecklist`: in the task(s) with id `taskId` the
      item(s) with id `itemId` flip, and everything else, lengths and order included,
      stays as it was. */
  function Toggled(tasks: seq<Task>, taskId: int, itemId: int): (r: seq<Task>)
    ensures |r| == |tasks|
    ensures forall i :: 0 <= i < |tasks| ==> r[i].id == tasks[i].id
    ensures forall i :: 0 <= i < |tasks| && tasks[i].id != taskId ==> r[i] == tasks[i]
    ensures forall i :: 0 <= i < |tasks| && tasks[i].id == taskId ==>
      r[i] == tasks[i].(checklist := ToggleItems(tasks[i].checklist, itemId))
  {
    MapWhere(tasks, SameKey(TaskId, taskId), ToggleIn(itemId))
  }

  /** Ticking the same item twice restores the checklist. */
  lemma ToggleItemsTwice(items: seq<ChecklistItem>, itemId: int)
    ensures ToggleItems(ToggleItems(items, itemId), itemId) == items
  {
    var r := ToggleItems(ToggleItems(items, itemId), itemId);
    assert forall i :: 0 <= i < |items| ==> r[i] == items[i];
  }

  /** Ticking the same item of the same task twice restores the task list. */
  lemma ToggleTwice(tasks: seq<Task>, taskId: int, itemId: int)
    ensures Toggled(Toggled(tasks, taskId, itemId), taskId, itemId) == tasks
  {
    var r := Toggled(Toggled(tasks, taskId, itemId), taskId, itemId);
    forall i | 0 <= i < |tasks|
      ensures r[i] == tasks[i]
    {
      ToggleItemsTwice(tasks[i].checklist, itemId);
    }
  }

  /** The selection after a toggle: a selected task with that id is replaced by the new
      version found in the list; any other selection is kept. */
  function ToggledSelection(newTasks: seq<Task>, selected: Option<Task>, taskId: int): (r: Option<Task>)
    ensures !(selected.Some? && selected.value.id == taskId) ==> r == selected
    ensures selected.Some? && selected.value.id == taskId ==>
      && (r.None? <==> forall i :: 0 <= i < |newTasks| ==> newTasks[i].id != taskId)
      && (r.Some? ==> r.value.id == taskId && r.value in newTasks)
      && (r.Some? ==> var k := IndexWhere(newTasks, SameKey(TaskId, taskId));
                      k < |newTasks| && r.value == newTasks[k] && forall j :: 0 <= j < k ==> newTasks[j].id != taskId)
  {
    if selected.Some? && selected.value.id == taskId then
      var p := SameKey(TaskId, taskId);
      assert forall t :: p(t) <==> t.id == taskId;
      Find(newTasks, p)
    else selected
  }

  /** When the selected task is the first one with its id, the selection after a toggle
      on it is the toggled version of that task. */
  lemma ToggleFollowsSelection(tasks: seq<Task>, selected: Task, itemId: int)
    requires Find(tasks, SameKey(TaskId, selected.id)) == Some(selected)
    ensures ToggledSelection(Toggled(tasks, selected.id, itemId), Some(selected), selected.id)
         == Some(ToggleIn(itemId)(selected))
  {
    var p := SameKey(TaskId, selected.id);
    var k := IndexWhere(tasks, p);
    var r := Toggled(tasks, selected.id, itemId);
    assert k < |tasks| && tasks[k] == selected;
    assert r[k] == ToggleIn(itemId)(selected) && TaskId(r[k]) == selected.id;
    assert p(r[k]);
    assert forall j :: 0 <= j < k ==> r[j].id == tasks[j].id && !p(tasks[j]);
    IndexWhereUnique(r, p, k);
  }

  /** The page state: the task list, the selected task and whether the edit dialog is open. */
  class VitalTaskPage {
    var tasks: seq<Task>
    var selected: Option<Task>
    var editOpen: bool

    constructor (initial: seq<Task>)
      ensures tasks == initial && selected.None? && !editOpen
    {
      tasks := initial;
      selected := None;
      editOpen := false;
    }

    /** The selection effect, run against the dashboard's current search term. */
    method SyncSelection(searchTerm: string)
      modifies this
      ensures selected == Reselect(FilteredTasks(tasks, searchTerm), old(selected))
      ensures Settled(FilteredTasks(tasks, searchTerm), TaskId, selected)
      ensures tasks == old(tasks) && editOpen == old(editOpen)
    {
      selected := Reselect(FilteredTasks(tasks, searchTerm), selected);
    }

    /** `handleDeleteTask`, with `confirmed` for the answer to `window.confirm`. */
    method DeleteTask(taskId: int, confirmed: bool)
      modifies this
      ensures !confirmed ==> tasks == old(tasks) && selected == old(selected)
      ensures confirmed ==> tasks == WithoutKey(old(tasks), TaskId, taskId)
      ensures confirmed ==>
        selected == (if old(selected).Some? && old(selected).value.id == taskId then First(tasks) else old(selected))
      ensures editOpen == old(editOpen)
    {
      if confirmed {
        var newTasks := WithoutKey(tasks, TaskId, taskId);
        tasks := newTasks;
        if selected.Some? && selected.value.id == taskId {
          selected := First(newTasks);
        }
      }
    }

    /** `handleUpdateTask`: the task with the updated one's id is replaced, the updated
        task is selected and the edit dialog closes. */
    method UpdateTask(updated: Task)
      modifies this
      ensures tasks == ReplaceKey(old(tasks), TaskId, updated)
      ensures selected == Some(updated) && !editOpen
    {
      tasks := ReplaceKey(tasks, TaskId, updated);
      selected := Some(updated);
      editOpen := false;
    }

    /** `handleToggleChecklist`. */
    method ToggleChecklist(taskId: int, itemId: int)
      modifies this
      ensures tasks == Toggled(old(tasks), taskId, itemId)
      ensures selected == ToggledSelection(tasks, old(selected), taskId)
      ensures editOpen == old(editOpen)
    {
      var newTasks := Toggled(tasks, taskId, itemId);
      tasks := newTasks;
      if selected.Some? && selected.value.id == taskId {
        selected := Find(newTasks, SameKey(TaskId, taskId));
      }
    }
  }
}
