/** The dialog that adds or renames a status or priority (src/components/CategoryEditModal.js). */
module CategoryEditModal {
  import opened Options
  import opened Text
  import opened Lists
  import opened TaskCategories

  /** The dialog's heading. */
  function ModalTitle(itemToEdit: Option<Category>, categoryType: string): (t: string)
    ensures itemToEdit.Some? ==> t == "Edit " + categoryType
    ensures itemToEdit.None? ==> t == "Add " + categoryType
  {
    (if itemToEdit.Some? then "Edit" else "Add") + " " + categoryType
  }

  /** `{ ...itemToEdit, name }`: the entry being edited, if any, with only its name
      replaced, the typed name kept as it is. */
  function DraftOf(itemToEdit: Option<Category>, name: string): (d: Draft)
    ensures d.name == name
    ensures itemToEdit.Some? ==> d.id == Some(itemToEdit.value.id)
    ensures itemToEdit.None? ==> d.id.None?
  {
    match itemToEdit
    case Some(c) => Draft(Some(c.id), name)
    case None => Draft(None, name)
  }

  /** Renaming an entry with a non-zero id through the page's save replaces that entry in
      place; adding appends a new one. */
  lemma SaveFromDialog(list: seq<Category>, itemToEdit: Option<Category>, name: string, now: int)
    ensures itemToEdit.Some? && itemToEdit.value.id != 0 ==>
      Upsert(list, DraftOf(itemToEdit, name), now) == ReplaceKey(list, CategoryId, itemToEdit.value.(name := name))
    ensures itemToEdit.None? ==> Upsert(list, DraftOf(itemToEdit, name), now) == list + [Category(now, name)]
  {
  }

  /** An entry with id 0 is falsy as an id: renaming it appends a copy instead. */
  lemma RenameOfIdZeroAppends(list: seq<Category>, name: string, now: int, c: Category)
    requires c.id == 0
    ensures Upsert(list, DraftOf(Some(c), name), now) == list + [Category(now, name)]
  {
  }

  class CategoryEditForm {
    var name: string

    constructor ()
      ensures name == ""
    {
      name := "";
    }

    /** The load effect: the entry's name, or '' when adding. */
    method Load(itemToEdit: Option<Category>)
      modifies this
      ensures name == if itemToEdit.Some? then itemToEdit.value.name else ""
    {
      if itemToEdit.Some? {
        name := itemToEdit.value.name;
      } else {
        name := "";
      }
    }

    method Type(text: string)
      modifies this
      ensures name == text
    {
      name := text;
    }

    /** `handleSave`: a blank name saves nothing. */
    method Save(itemToEdit: Option<Category>) returns (saved: Option<Draft>)
      ensures Blank(name) ==> saved.None?
      ensures !Blank(name) ==> saved == Some(DraftOf(itemToEdit, name))
    {
      if Blank(name) {
        return None;
      }
      saved := Some(DraftOf(itemToEdit, name));
    }
  }
}
