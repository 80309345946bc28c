/** The edit dialog of the personal-task page (src/components/EditMyTaskModal.js): four
    form fields loaded from the task, edited one at a time, and merged back over it. */
module EditMyTaskModal {
  import opened Options
  import opened MyTasks

  /** The `name` attributes of the dialog's four inputs. */
  datatype Field = Title | Objective | TaskDescription | Deadline

  /** `formData`. */
  datatype FormData = FormData(title: string, objective: string, taskDescription: string, deadline: string)

  const EmptyForm: FormData := FormData("", "", "", "")

  /** The form the load effect builds from a task: each field, or '' when it is missing
      or empty. */
  function Loaded(t: Task): (f: FormData)
    ensures f.title == t.title
    ensures f.objective == OrElse(t.objective, "")
    ensures f.taskDescription == OrElse(t.taskDescription, "")
    ensures f.deadline == OrElse(t.deadline, "")
  {
    FormData(t.title, OrElse(t.objective, ""), OrElse(t.taskDescription, ""), OrElse(t.deadline, ""))
  }

  /** `{ ...prev, [name]: value }`. */
  function WithField(f: FormData, name: Field, value: string): FormData {
    match name
    case Title => f.(title := value)
    case Objective => f.(objective := value)
    case TaskDescription => f.(taskDescription := value)
    case Deadline => f.(deadline := value)
  }

  /** The value the form holds for an input. */
  function FieldValue(f: FormData, name: Field): string {
    match name
    case Title => f.title
    case Objective => f.objective
    case TaskDescription => f.taskDescription
    case Deadline => f.deadline
  }

  /** Editing one input sets that input and leaves every other input as it was. */
  lemma WithFieldOnly(f: FormData, name: Field, value: string, other: Field)
    ensures FieldValue(WithField(f, name, value), name) == value
    ensures other != name ==> FieldValue(WithField(f, name, value), other) == FieldValue(f, other)
  {
  }

  /** `{ ...taskToEdit, ...formData }`: the four form fields override the task's. */
  function Merged(t: Task, f: FormData): (r: Task)
    ensures r.title == f.title && r.objective == Some(f.objective)
    ensures r.taskDescription == Some(f.taskDescription) && r.deadline == Some(f.deadline)
    ensures r.(title := t.title, objective := t.objective, taskDescription := t.taskDescription,
               deadline := t.deadline) == t
  {
    t.(title := f.title, objective := Some(f.objective), taskDescription := Some(f.taskDescription),
       deadline := Some(f.deadline))
  }

  /** Loading a task and submitting the untouched form gives the task back, provided its
      three optional fields were present and not empty. */
  lemma UntouchedSubmitIsIdentity(t: Task)
    requires t.objective.Some? && t.objective.value != ""
    requires t.taskDescription.Some? && t.taskDescription.value != ""
    requires t.deadline.Some? && t.deadline.value != ""
    ensures Merged(t, Loaded(t)) == t
  {
  }

  /** A missing field comes back as the empty string, so the round trip is not exact. */
  lemma UntouchedSubmitFillsMissing(t: Task)
    requires t.deadline.None?
    ensures Merged(t, Loaded(t)).deadline == Some("") && Merged(t, Loaded(t)) != t
  {
  }

  class EditMyTaskForm {
    var form: FormData

    constructor ()
      ensures form == EmptyForm
    {
      form := EmptyForm;
    }

    /** The load effect: only a present task replaces the form. */
    method Load(taskToEdit: Option<Task>)
      modifies this
      ensures taskToEdit.Some? ==> form == Loaded(taskToEdit.value)
      ensures taskToEdit.None? ==> form == old(form)
    {
      if taskToEdit.Some? {
        form := Loaded(taskToEdit.value);
      }
    }

    /** `handleChange`. */
    method Change(name: Field, value: string)
      modifies this
      ensures form == WithField(old(form), name, value)
    {
      form := WithField(form, name, value);
    }

    /** `handleSubmit`: the merged task goes to `onUpdateTask`, then the dialog closes. */
    method Submit(taskToEdit: Task) returns (updated: Task)
      ensures updated == Merged(taskToEdit, form)
    {
      updated := Merged(taskToEdit, form);
    }
  }
}
