/** The dashboard (src/components/Dashboard.js): the task list split into to-do and
    completed tasks, the search over the to-do tasks, the team-member counter, and the
    inline editing of a task's title and description. */
module Dashboard {
  import opened Options
  import opened Text
  import opened Lists
  import AddTaskModal

  /** A dashboard task; `completedAgo` is only present on some completed tasks. */
  datatype Task = Task(id: int, title: string, description: string, status: string,
                       priority: string, createdOn: string, image: string,
                       completedAgo: Option<string>)

  function TaskId(t: Task): int { t.id }

  const StatusNotStarted: string := "Not Started"
  const StatusInProgress: string := "In Progress"
  const StatusCompleted: string := "Completed"
  const InitialMemberCount: nat := 3

  /** `getStatusColor`: three named statuses, grey for anything else. */
  function StatusColor(status: string): (c: string)
    ensures status == StatusNotStarted <==> c == "#ff5757"
    ensures status == StatusInProgress <==> c == "#2196f3"
    ensures status == StatusCompleted <==> c == "#4caf50"
    ensures status != StatusNotStarted && status != StatusInProgress && status != StatusCompleted <==> c == "#888"
  {
    if status == StatusNotStarted then "#ff5757"
    else if status == StatusInProgress then "#2196f3"
    else if status == StatusCompleted then "#4caf50"
    else "#888"
  }

  predicate IsCompleted(t: Task) { t.status == StatusCompleted }

  predicate IsOpen(t: Task) { t.status != StatusCompleted }

  function TodoTasks(tasks: seq<Task>): (r: seq<Task>)
    ensures forall t :: t in r <==> t in tasks && IsOpen(t)
    ensures forall t :: multiset(r)[t] == if IsOpen(t) then multiset(tasks)[t] else 0
  {
    Filter(tasks, IsOpen)
  }

  function CompletedTasks(tasks: seq<Task>): (r: seq<Task>)
    ensures forall t :: t in r <==> t in tasks && IsCompleted(t)
    ensures forall t :: multiset(r)[t] == if IsCompleted(t) then multiset(tasks)[t] else 0
  {
    Filter(tasks, IsCompleted)
  }

  /** The to-do and completed lists partition the tasks: each task is in exactly one of
      them, both keep the original order, and their lengths add up to the whole. */
  lemma Partition(tasks: seq<Task>)
    ensures forall t :: t in tasks ==> (t in TodoTasks(tasks) <==> t !in CompletedTasks(tasks))
    ensures |TodoTasks(tasks)| + |CompletedTasks(tasks)| == |tasks|
    ensures IsSubsequence(TodoTasks(tasks), tasks) && IsSubsequence(CompletedTasks(tasks), tasks)
  {
    FilterSplitsLength(tasks, IsOpen, IsCompleted);
    FilterIsSubsequence(tasks, IsOpen);
    FilterIsSubsequence(tasks, IsCompleted);
  }

  predicate Matches(t: Task, term: string) {
    IncludesFolded(t.title, term) || IncludesFolded(t.description, term)
  }

  function MatchesTerm(term: string): Task -> bool {
    (t: Task) => Matches(t, term)
  }

  /** `filteredTodoTasks`: the to-do tasks whose title or description contains the term,
      ignoring case, in order; the empty term keeps every to-do task. */
  function FilteredTodoTasks(tasks: seq<Task>, term: string): (r: seq<Task>)
    ensures forall t :: t in r <==> t in tasks && IsOpen(t) && Matches(t, term)
    ensures forall t :: multiset(r)[t] == if IsOpen(t) && Matches(t, term) then multiset(tasks)[t] else 0
    ensures IsSubsequence(r, TodoTasks(tasks))
    ensures term == "" ==> r == TodoTasks(tasks)
  {
    var todo := TodoTasks(tasks);
    FilterIsSubsequence(todo, MatchesTerm(term));
    if term == "" then
      FilterKeepsAll(todo, MatchesTerm(term));
      Filter(todo, MatchesTerm(term))
    else Filter(todo, MatchesTerm(term))
  }

  /** `{ id: Date.now(), ...taskDetails }`. */
  function Created(id: int, d: AddTaskModal.NewTask): (t: Task)
    ensures t.id == id && t.completedAgo.None?
    ensures t.title == d.title && t.description == d.description && t.status == d.status
    ensures t.priority == d.priority && t.createdOn == d.createdOn && t.image == d.image
  {
    Task(id, d.title, d.description, d.status, d.priority, d.createdOn, d.image, None)
  }

  /** The inputs of the inline editor, by their `name` attribute. */
  datatype EditField = Title | Description

  /** `{ ...prev, [name]: value }` on the editing copy. */
  function Edited(t: Task, name: EditField, value: string): (r: Task)
    ensures name == Title ==> r == t.(title := value)
    ensures name == Description ==> r == t.(description := value)
  {
    match name
    case Title => t.(title := value)
    case Description => t.(description := value)
  }

  /** Editing the copy changes neither its id nor its status, so saving it replaces the
      task it was taken from and keeps it on the same side of the partition. */
  lemma EditKeepsIdentity(t: Task, name: EditField, value: string)
    ensures Edited(t, name, value).id == t.id && Edited(t, name, value).status == t.status
    ensures Edited(t, name, value).(title := t.title, description := t.description) == t
  {
  }

  /** The dashboard's state: its tasks, the dialogs, the member count and the editing copy. */
  class DashboardPage {
    var tasks: seq<Task>
    var taskModalOpen: bool
    var inviteModalOpen: bool
    var teamMemberCount: nat
    var editing: Option<Task>

    constructor (initial: seq<Task>)
      ensures tasks == initial && !taskModalOpen && !inviteModalOpen
      ensures teamMemberCount == InitialMemberCount && editing.None?
    {
      tasks := initial;
      taskModalOpen, inviteModalOpen := false, false;
      teamMemberCount := InitialMemberCount;
      editing := None;
    }

    /** `handleAddTask` at the instant `now`: the new task goes first, then the old list. */
    method AddTask(details: AddTaskModal.NewTask, now: int)
      modifies this
      ensures tasks == [Created(now, details)] + old(tasks)
      ensures !taskModalOpen
      ensures inviteModalOpen == old(inviteModalOpen) && teamMemberCount == old(teamMemberCount)
      ensures editing == old(editing)
    {
      tasks := [Created(now, details)] + tasks;
      taskModalOpen := false;
    }

    /** `handleInvite`: one more member; the invited address is not kept. */
    method Invite(email: string)
      modifies this
      ensures teamMemberCount == old(teamMemberCount) + 1 && !inviteModalOpen
      ensures tasks == old(tasks) && taskModalOpen == old(taskModalOpen) && editing == old(editing)
    {
      teamMemberCount := teamMemberCount + 1;
      inviteModalOpen := false;
    }

    /** `handleDeleteTask`, with `confirmed` for the answer to `window.confirm`. */
    method DeleteTask(taskId: int, confirmed: bool)
      modifies this
      ensures tasks == if confirmed then WithoutKey(old(tasks), TaskId, taskId) else old(tasks)
      ensures taskModalOpen == old(taskModalOpen) && inviteModalOpen == old(inviteModalOpen)
      ensures teamMemberCount == old(teamMemberCount) && editing == old(editing)
    {
      if confirmed {
        tasks := WithoutKey(tasks, TaskId, taskId);
      }
    }

    /** `handleStartEditing`: a copy of the task becomes the editing copy. */
    method StartEditing(task: Task)
      modifies this
      ensures editing == Some(task) && tasks == old(tasks) && teamMemberCount == old(teamMemberCount)
      ensures taskModalOpen == old(taskModalOpen) && inviteModalOpen == old(inviteModalOpen)
    {
      editing := Some(task);
    }

    /** `handleCancelEditing`. */
    method CancelEditing()
      modifies this
      ensures editing.None? && tasks == old(tasks) && teamMemberCount == old(teamMemberCount)
      ensures taskModalOpen == old(taskModalOpen) && inviteModalOpen == old(inviteModalOpen)
    {
      editing := None;
    }

    /** `handleEditChange`: only the named field of the editing copy changes. */
    method EditChange(name: EditField, value: string)
      modifies this
      ensures editing == if old(editing).Some? then Some(Edited(old(editing).value, name, value)) else old(editing)
      ensures tasks == old(tasks) && teamMemberCount == old(teamMemberCount)
      ensures taskModalOpen == old(taskModalOpen) && inviteModalOpen == old(inviteModalOpen)
    {
      if editing.Some? {
        editing := Some(Edited(editing.value, name, value));
      }
    }

    /** `handleSaveEditing`: the editing copy replaces the task with its id, and editing ends. */
    method SaveEditing()
      modifies this
      ensures old(editing).Some? ==> tasks == ReplaceKey(old(tasks), TaskId, old(editing).value) && editing.None?
      ensures old(editing).None? ==> tasks == old(tasks) && editing.None?
      ensures teamMemberCount == old(teamMemberCount)
      ensures taskModalOpen == old(taskModalOpen) && inviteModalOpen == old(inviteModalOpen)
    {
      if editing.Some? {
        tasks := ReplaceKey(tasks, TaskId, editing.value);
        editing := None;
      }
    }
  }
}
