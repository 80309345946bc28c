/** The personal-task page (src/components/MyTask.js): a searchable task list with one
    selected task, and the handlers that delete and replace tasks. */
module MyTasks {
  import opened Options
  import opened Text
  import opened Lists

  /** A task record. `objective`, `taskDescription` and `deadline` may be absent; the
      edit dialog fills them in. */
  datatype Task = Task(id: int, title: string, shortDescription: string, priority: string,
                       status: string, createdOn: string, objective: Option<string>,
                       taskDescription: Option<string>, additionalNotes: seq<string>,
                       deadline: Option<string>)

  function TaskId(t: Task): int { t.id }

  const ColorExtreme: string := "#ff5757"
  const ColorModerate: string := "#2196f3"
  const ColorOther: string := "#4caf50"

  /** `getPriorityColor`: two named priorities, one colour for everything else. */
  function PriorityColor(priority: string): (c: string)
    ensures priority == "Extreme" <==> c == ColorExtreme
    ensures priority == "Moderate" <==> c == ColorModerate
    ensures priority != "Extreme" && priority != "Moderate" <==> c == ColorOther
  {
    if priority == "Extreme" then ColorExtreme
    else if priority == "Moderate" then ColorModerate
    else ColorOther
  }

  /** The search test: the title or the short description contains the term, ignoring case. */
  predicate Matches(t: Task, term: string) {
    IncludesFolded(t.title, term) || IncludesFolded(t.shortDescription, term)
  }

  function MatchesTerm(term: string): Task -> bool {
    (t: Task) => Matches(t, term)
  }

  /** `filteredTasks`: the tasks that match, in their order; the empty term keeps them all. */
  function FilteredTasks(tasks: seq<Task>, term: string): (r: seq<Task>)
    ensures forall t :: t in r <==> t in tasks && Matches(t, term)
    ensures forall t :: multiset(r)[t] == if Matches(t, term) then multiset(tasks)[t] else 0
    ensures IsSubsequence(r, tasks)
    ensures term == "" ==> r == tasks
  {
    FilterIsSubsequence(tasks, MatchesTerm(term));
    if term == "" then
      FilterKeepsAll(tasks, MatchesTerm(term));
      Filter(tasks, MatchesTerm(term))
    else Filter(tasks, MatchesTerm(term))
  }

  /** The selection effect as written here: a selection that no visible task shares the id
      of moves to the first visible task or to none; no selection with some visible task
      selects the first one. The outcome is the settled selection. */
  function Reselect(filtered: seq<Task>, selected: Option<Task>): (r: Option<Task>)
    ensures r == if Settled(filtered, TaskId, selected) then selected else First(filtered)
    ensures Settled(filtered, TaskId, r)
  {
    FirstSettles(filtered, TaskId);
    if selected.Some? && !HasKey(filtered, TaskId, selected.value.id) then First(filtered)
    else if selected.None? && |filtered| > 0 then Some(filtered[0])
    else selected
  }

  /** A selection already among the visible tasks is left exactly as it is. */
  lemma ReselectKeepsVisible(filtered: seq<Task>, selected: Task)
    requires selected in filtered
    ensures Reselect(filtered, Some(selected)) == Some(selected)
  {
    var i :| 0 <= i < |filtered| && filtered[i] == selected;
    assert TaskId(filtered[i]) == selected.id;
  }

  /** Running the effect again after it has run changes nothing. */
  lemma ReselectIdempotent(filtered: seq<Task>, selected: Option<Task>)
    ensures Reselect(filtered, Reselect(filtered, selected)) == Reselect(filtered, selected)
  {
  }

  /** The page state: the task list, the selected task, the edit dialog and the task
      whose action menu is open. */
  class MyTaskPage {
    var tasks: seq<Task>
    var selected: Option<Task>
    var editOpen: bool
    var menuTask: Option<Task>

    constructor (initial: seq<Task>)
      ensures tasks == initial && selected.None? && !editOpen && menuTask.None?
    {
      tasks := initial;
      selected := None;
      editOpen := false;
      menuTask := None;
    }

    /** The selection effect, run against the dashboard's current search term. */
    method SyncSelection(searchTerm: string)
      modifies this
      ensures selected == Reselect(FilteredTasks(tasks, searchTerm), old(selected))
      ensures Settled(FilteredTasks(tasks, searchTerm), TaskId, selected)
      ensures tasks == old(tasks) && editOpen == old(editOpen) && menuTask == old(menuTask)
    {
      selected := Reselect(FilteredTasks(tasks, searchTerm), selected);
    }

    /** `handleOpenEditModal`: select the task, open the dialog, close the menu. */
    method OpenEditModal(task: Task)
      modifies this
      ensures selected == Some(task) && editOpen && menuTask.None? && tasks == old(tasks)
    {
      selected := Some(task);
      editOpen := true;
      menuTask := None;
    }

    /** `handleDeleteTask`, with `confirmed` for the answer to `window.confirm`; the menu
        closes either way. */
    method DeleteTask(task: Task, confirmed: bool)
      modifies this
      ensures !confirmed ==> tasks == old(tasks) && selected == old(selected)
      ensures confirmed ==> tasks == WithoutKey(old(tasks), TaskId, task.id)
      ensures confirmed ==>
        selected == (if old(selected).Some? && old(selected).value.id == task.id then First(tasks) else old(selected))
      ensures menuTask.None? && editOpen == old(editOpen)
    {
      if confirmed {
        var newTasks := WithoutKey(tasks, TaskId, task.id);
        tasks := newTasks;
        if selected.Some? && selected.value.id == task.id {
          selected := First(newTasks);
        }
      }
      menuTask := None;
    }

    /** `handleUpdateTask`: the task with the updated one's id is replaced and the updated
        task is selected. */
    method UpdateTask(updated: Task)
      modifies this
      ensures tasks == ReplaceKey(old(tasks), TaskId, updated)
      ensures selected == Some(updated)
      ensures editOpen == old(editOpen) && menuTask == old(menuTask)
    {
      tasks := ReplaceKey(tasks, TaskId, updated);
      selected := Some(updated);
    }
  }
}
