/** The edit dialog of the vital-task page (src/components/EditVitalTaskModal.js): form
    fields loaded from the task, an image chosen from a file or typed as a URL, and a
    submit that writes the trimmed texts back over the task. */
module EditVitalTaskModal {
  import opened Options
  import opened Text
  import opened VitalTasks

  const DefaultPriority: string := "Moderate"
  const TitleRequired: string := "Title is required!"

  /** The task `handleSubmit` hands to `onUpdateTask`: the original with the three texts
      trimmed and the priority and image from the form. */
  function Edited(t: Task, title: string, description: string, fullDescription: string,
                  priority: string, image: string): (r: Task)
    ensures r.title == Trim(title) && r.description == Trim(description)
    ensures r.fullDescription == Trim(fullDescription)
    ensures r.priority == priority && r.image == image
    ensures r.(title := t.title, description := t.description, fullDescription := t.fullDescription,
               priority := t.priority, image := t.image) == t
  {
    t.(title := Trim(title), description := Trim(description), fullDescription := Trim(fullDescription),
       priority := priority, image := image)
  }

  /** Loading a task and submitting the untouched form gives the task back when its texts
      carry no surrounding white space and its priority is set. */
  lemma UntouchedSubmitIsIdentity(t: Task)
    requires Trim(t.title) == t.title && Trim(t.description) == t.description
    requires Trim(t.fullDescription) == t.fullDescription && t.priority != ""
    ensures Edited(t, OrElse(Some(t.title), ""), OrElse(Some(t.description), ""),
                   OrElse(Some(t.fullDescription), ""), OrElse(Some(t.priority), DefaultPriority),
                   OrElse(Some(t.image), "")) == t
  {
  }

  class EditVitalTaskForm {
    var title: string
    var priority: string
    var description: string
    var fullDescription: string
    var imagePreview: string
    var imageUrl: string
    var error: string

    constructor ()
      ensures title == "" && priority == DefaultPriority && description == "" && fullDescription == ""
      ensures imagePreview == "" && imageUrl == "" && error == ""
    {
      title, priority, description, fullDescription := "", DefaultPriority, "", "";
      imagePreview, imageUrl, error := "", "", "";
    }

    /** The load effect: a present task fills the form, an empty priority becoming
        'Moderate', and the typed URL is cleared. */
    method Load(taskToEdit: Option<Task>)
      modifies this
      ensures taskToEdit.None? ==>
        title == old(title) && priority == old(priority) && description == old(description)
        && fullDescription == old(fullDescription) && imagePreview == old(imagePreview) && imageUrl == old(imageUrl)
      ensures taskToEdit.Some? ==>
        var t := taskToEdit.value;
        && title == t.title && priority == OrElse(Some(t.priority), DefaultPriority)
        && description == t.description && fullDescription == t.fullDescription
        && imagePreview == t.image && imageUrl == ""
      ensures error == old(error)
    {
      if taskToEdit.Some? {
        var t := taskToEdit.value;
        title := OrElse(Some(t.title), "");
        priority := OrElse(Some(t.priority), DefaultPriority);
        description := OrElse(Some(t.description), "");
        fullDescription := OrElse(Some(t.fullDescription), "");
        imagePreview := OrElse(Some(t.image), "");
        imageUrl := "";
      }
    }

    /** Typing a title, which also clears a shown error. */
    method TypeTitle(text: string)
      modifies this
      ensures title == text && error == ""
      ensures priority == old(priority) && description == old(description) && fullDescription == old(fullDescription)
      ensures imagePreview == old(imagePreview) && imageUrl == old(imageUrl)
    {
      title := text;
      if error != "" {
        error := "";
      }
    }

    /** `handleFileChange`, with `objectUrl` for `URL.createObjectURL` of the chosen file,
        absent when no file was chosen. */
    method FileChange(objectUrl: Option<string>)
      modifies this
      ensures objectUrl.Some? ==> imagePreview == objectUrl.value && imageUrl == ""
      ensures objectUrl.None? ==> imagePreview == old(imagePreview) && imageUrl == old(imageUrl)
      ensures title == old(title) && priority == old(priority) && description == old(description)
      ensures fullDescription == old(fullDescription) && error == old(error)
    {
      if objectUrl.Some? {
        imagePreview := objectUrl.value;
        imageUrl := "";
      }
    }

    /** `handleUrlChange`: the typed URL is also the preview. */
    method UrlChange(url: string)
      modifies this
      ensures imageUrl == url && imagePreview == url
      ensures title == old(title) && priority == old(priority) && description == old(description)
      ensures fullDescription == old(fullDescription) && error == old(error)
    {
      imageUrl := url;
      imagePreview := url;
    }

    /** `handleSubmit`: a blank title shows the error and nothing is emitted; otherwise
        the edited task is emitted and the dialog closes. */
    method Submit(taskToEdit: Task) returns (updated: Option<Task>)
      modifies this
      ensures Blank(old(title)) ==> updated.None? && error == TitleRequired
      ensures !Blank(old(title)) ==>
        error == old(error)
        && updated == Some(Edited(taskToEdit, title, description, fullDescription, priority, imagePreview))
      ensures title == old(title) && priority == old(priority) && description == old(description)
      ensures fullDescription == old(fullDescription) && imagePreview == old(imagePreview) && imageUrl == old(imageUrl)
    {
      if Blank(title) {
        error := TitleRequired;
        return None;
      }
      updated := Some(Edited(taskToEdit, title, description, fullDescription, priority, imagePreview));
    }
  }
}
