/** The new-task dialog of the dashboard (src/components/AddTaskModal.js): its form
    state, the record it emits, and the reset on close. */
module AddTaskModal {
  import opened Options
  import opened Text

  /** The record handed to `onAddTask`; the dashboard gives it an id. */
  datatype NewTask = NewTask(title: string, description: string, priority: string,
                             createdOn: string, status: string, image: string)

  const DefaultPriority: string := "Moderate"
  const NotStarted: string := "Not Started"
  const TitleRequired: string := "Title is required!"
  const DefaultImage: string := "https://images.unsplash.com/photo-1599507593498-27b355d9b897?w=100&h=80&fit=crop"

  /** `new Date().toISOString().split('T')[0]`: the date part of an ISO timestamp. */
  function IsoDate(isoNow: string): (d: string)
    ensures 'T' !in d
    ensures 'T' in isoNow ==> isoNow == d + "T" + After(isoNow, 'T')
    ensures 'T' !in isoNow ==> d == isoNow
  {
    SplitFirst(isoNow, 'T');
    Split(isoNow, 'T')[0]
  }

  /** The record `handleSubmit` emits from the form. */
  function Emitted(title: string, date: string, priority: string, description: string,
                   imagePreview: string, isoNow: string): (t: NewTask)
    ensures t.title == Trim(title) && t.description == Trim(description) && t.priority == priority
    ensures t.status == NotStarted
    ensures t.createdOn == (if date != "" then date else IsoDate(isoNow))
    ensures t.image == (if imagePreview != "" then imagePreview else DefaultImage)
  {
    NewTask(Trim(title), Trim(description), priority, OrElse(Some(date), IsoDate(isoNow)),
            NotStarted, OrElse(Some(imagePreview), DefaultImage))
  }

  /** An emitted title is never blank: the blank case is refused before emitting. */
  lemma EmittedTitleFilled(title: string, date: string, priority: string, description: string,
                           imagePreview: string, isoNow: string)
    requires !Blank(title)
    ensures var t := Emitted(title, date, priority, description, imagePreview, isoNow);
      t.title != "" && Trim(t.title) == t.title
  {
    var r := Trim(title);
    assert r != [] && !IsSpace(r[0]) && !IsSpace(r[|r| - 1]);
    TrimIsSlice(title);
    TrimOfTrimmed(r);
  }

  /** Text that neither starts nor ends with white space is its own trim. */
  lemma TrimOfTrimmed(s: string)
    requires s == [] || (!IsSpace(s[0]) && !IsSpace(s[|s| - 1]))
    ensures Trim(s) == s
  {
    if s != [] {
      assert TrimStart(s) == s;
      assert TrimEnd(s) == s;
    }
  }

  class AddTaskForm {
    var title: string
    var date: string
    var priority: string
    var description: string
    var imagePreview: string
    var error: string

    /** The state `handleClose` restores. */
    predicate Reset()
      reads this
    {
      title == "" && date == "" && priority == DefaultPriority && description == ""
      && imagePreview == "" && error == ""
    }

    constructor ()
      ensures Reset()
    {
      title, date, priority := "", "", DefaultPriority;
      description, imagePreview, error := "", "", "";
    }

    /** Typing a title, which also clears a shown error. */
    method TypeTitle(text: string)
      modifies this
      ensures title == text && error == ""
      ensures date == old(date) && priority == old(priority) && description == old(description)
      ensures imagePreview == old(imagePreview)
    {
      title := text;
      if error != "" {
        error := "";
      }
    }

    /** `handleImageChange`, with `objectUrl` for `URL.createObjectURL` of the chosen file,
        absent when no file was chosen. */
    method ImageChange(objectUrl: Option<string>)
      modifies this
      ensures imagePreview == (if objectUrl.Some? then objectUrl.value else old(imagePreview))
      ensures title == old(title) && date == old(date) && priority == old(priority)
      ensures description == old(description) && error == old(error)
    {
      if objectUrl.Some? {
        imagePreview := objectUrl.value;
      }
    }

    /** `handleClose`: every field back to its initial value. */
    method Close()
      modifies this
      ensures Reset()
    {
      title := "";
      date := "";
      priority := DefaultPriority;
      description := "";
      imagePreview := "";
      error := "";
    }

    /** `handleSubmit` at the instant whose ISO form is `isoNow`: a blank title shows the
        error and emits nothing; otherwise the task is emitted and the form is reset. */
    method Submit(isoNow: string) returns (emitted: Option<NewTask>)
      modifies this
      ensures Blank(old(title)) ==>
        emitted.None? && error == TitleRequired
        && title == old(title) && date == old(date) && priority == old(priority)
        && description == old(description) && imagePreview == old(imagePreview)
      ensures !Blank(old(title)) ==>
        emitted == Some(Emitted(old(title), old(date), old(priority), old(description), old(imagePreview), isoNow))
        && Reset()
    {
      if Blank(title) {
        error := TitleRequired;
        return None;
      }
      emitted := Some(Emitted(title, date, priority, description, imagePreview, isoNow));
      Close();
    }
  }
}
