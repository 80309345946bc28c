/** The category settings page (src/components/TaskCategories.js): two editable lists,
    task statuses and task priorities, a dialog that adds or renames an entry, and an
    inline form that adds a status. */
module TaskCategories {
  import opened Options
  import opened Text
  import opened Lists

  datatype Category = Category(id: int, name: string)

  /** What the dialog saves: the edited entry with its new name, or just a name (no id)
      when adding. */
  datatype Draft = Draft(id: Option<int>, name: string)

  function CategoryId(c: Category): int { c.id }

  /** The two keys of `listMap`. */
  datatype Kind = StatusKind | PriorityKind

  /** `listMap[categoryType]`: only 'Status' and 'Priority' name a list. */
  function KindOf(categoryType: string): (k: Option<Kind>)
    ensures k == Some(StatusKind) <==> categoryType == "Status"
    ensures k == Some(PriorityKind) <==> categoryType == "Priority"
  {
    if categoryType == "Status" then Some(StatusKind)
    else if categoryType == "Priority" then Some(PriorityKind)
    else None
  }

  /** `if (item.id)`: an absent id and the id 0 are both falsy. */
  predicate HasTruthyId(d: Draft) {
    d.id.Some? && d.id.value != 0
  }

  /** The list `handleSave` writes at the instant `now`: a draft with an id replaces the
      entries with that id; one without is appended with `now` as its id. */
  function Upsert(list: seq<Category>, d: Draft, now: int): (r: seq<Category>)
    ensures HasTruthyId(d) ==> r == ReplaceKey(list, CategoryId, Category(d.id.value, d.name))
    ensures !HasTruthyId(d) ==> r == list + [Category(now, d.name)]
  {
    if HasTruthyId(d) then ReplaceKey(list, CategoryId, Category(d.id.value, d.name))
    else list + [Category(now, d.name)]
  }

  /** A rename keeps the list's length and order and every other entry; the renamed entry
      is in the list exactly when its id was. */
  lemma RenameInPlace(list: seq<Category>, id: int, name: string, now: int)
    requires id != 0
    ensures |Upsert(list, Draft(Some(id), name), now)| == |list|
    ensures forall i :: 0 <= i < |list| && list[i].id != id ==> Upsert(list, Draft(Some(id), name), now)[i] == list[i]
    ensures forall i :: 0 <= i < |list| && list[i].id == id ==> Upsert(list, Draft(Some(id), name), now)[i] == Category(id, name)
    ensures Category(id, name) in Upsert(list, Draft(Some(id), name), now) <==> HasKey(list, CategoryId, id)
  {
  }

  /** An addition puts one new entry at the end; its id is new when no entry had `now`
      as its id. */
  lemma AddAppends(list: seq<Category>, d: Draft, now: int)
    requires !HasTruthyId(d)
    ensures var r := Upsert(list, d, now);
      |r| == |list| + 1 && r[..|list|] == list && r[|list|] == Category(now, d.name)
    ensures !HasKey(list, CategoryId, now) ==>
      forall i :: 0 <= i < |list| ==> Upsert(list, d, now)[i].id != Upsert(list, d, now)[|list|].id
  {
    var r := Upsert(list, d, now);
    assert r[..|list|] == list;
  }

  class CategoriesPage {
    var statuses: seq<Category>
    var priorities: seq<Category>
    var modalOpen: bool
    var currentItem: Option<Category>
    var categoryType: string
    var inlineFormVisible: bool
    var newCategoryName: string

    constructor (initialStatuses: seq<Category>, initialPriorities: seq<Category>)
      ensures statuses == initialStatuses && priorities == initialPriorities
      ensures !modalOpen && currentItem.None? && categoryType == ""
      ensures !inlineFormVisible && newCategoryName == ""
    {
      statuses, priorities := initialStatuses, initialPriorities;
      modalOpen, currentItem, categoryType := false, None, "";
      inlineFormVisible, newCategoryName := false, "";
    }

    /** `handleOpenModal`: the dialog opens on an entry (or none, to add) of a list. */
    method OpenModal(item: Option<Category>, kind: string)
      modifies this
      ensures modalOpen && currentItem == item && categoryType == kind
      ensures statuses == old(statuses) && priorities == old(priorities)
      ensures inlineFormVisible == old(inlineFormVisible) && newCategoryName == old(newCategoryName)
    {
      currentItem := item;
      categoryType := kind;
      modalOpen := true;
    }

    /** `handleCloseModal`: closed, no current entry, no list type. */
    method CloseModal()
      modifies this
      ensures !modalOpen && currentItem.None? && categoryType == ""
      ensures statuses == old(statuses) && priorities == old(priorities)
      ensures inlineFormVisible == old(inlineFormVisible) && newCategoryName == old(newCategoryName)
    {
      modalOpen := false;
      currentItem := None;
      categoryType := "";
    }

    /** `handleSave` at the instant `now`. Only the list the dialog's type names is
        written, and then the dialog closes; a type naming no list makes the handler throw
        before it changes anything. */
    method Save(d: Draft, now: int)
      modifies this
      ensures KindOf(old(categoryType)) == Some(StatusKind) ==>
        statuses == Upsert(old(statuses), d, now) && priorities == old(priorities)
      ensures KindOf(old(categoryType)) == Some(PriorityKind) ==>
        priorities == Upsert(old(priorities), d, now) && statuses == old(statuses)
      ensures KindOf(old(categoryType)).Some? ==> !modalOpen && currentItem.None? && categoryType == ""
      ensures KindOf(old(categoryType)).None? ==>
        statuses == old(statuses) && priorities == old(priorities)
        && modalOpen == old(modalOpen) && currentItem == old(currentItem) && categoryType == old(categoryType)
      ensures inlineFormVisible == old(inlineFormVisible) && newCategoryName == old(newCategoryName)
    {
      var kind := KindOf(categoryType);
      if kind == Some(StatusKind) {
        statuses := Upsert(statuses, d, now);
      } else if kind == Some(PriorityKind) {
        priorities := Upsert(priorities, d, now);
      } else {
        return;
      }
      CloseModal();
    }

    /** `handleDelete`, with `confirmed` for the answer to `window.confirm`: the entries
        with that id leave the named list only. */
    method Delete(id: int, kind: string, confirmed: bool)
      modifies this
      ensures statuses == if confirmed && kind == "Status" then WithoutKey(old(statuses), CategoryId, id) else old(statuses)
      ensures priorities == if confirmed && kind == "Priority" then WithoutKey(old(priorities), CategoryId, id) else old(priorities)
      ensures modalOpen == old(modalOpen) && currentItem == old(currentItem) && categoryType == old(categoryType)
      ensures inlineFormVisible == old(inlineFormVisible) && newCategoryName == old(newCategoryName)
    {
      if confirmed {
        if kind == "Status" {
          statuses := WithoutKey(statuses, CategoryId, id);
        } else if kind == "Priority" {
          priorities := WithoutKey(priorities, CategoryId, id);
        }
      }
    }

    /** Typing in the inline form. */
    method TypeNewCategory(text: string)
      modifies this
      ensures newCategoryName == text
      ensures statuses == old(statuses) && priorities == old(priorities) && inlineFormVisible == old(inlineFormVisible)
      ensures modalOpen == old(modalOpen) && currentItem == old(currentItem) && categoryType == old(categoryType)
    {
      newCategoryName := text;
    }

    /** `handleCreateCategory` at the instant `now`: a blank name is ignored; otherwise the
        name, untrimmed, is added as a status, and the inline form is cleared and hidden. */
    method CreateCategory(now: int)
      modifies this
      ensures Blank(old(newCategoryName)) ==>
        statuses == old(statuses) && newCategoryName == old(newCategoryName) && inlineFormVisible == old(inlineFormVisible)
      ensures !Blank(old(newCategoryName)) ==>
        statuses == old(statuses) + [Category(now, old(newCategoryName))]
        && newCategoryName == "" && !inlineFormVisible
      ensures priorities == old(priorities)
      ensures modalOpen == old(modalOpen) && currentItem == old(currentItem) && categoryType == old(categoryType)
    {
      if !Blank(newCategoryName) {
        statuses := statuses + [Category(now, newCategoryName)];
        newCategoryName := "";
        inlineFormVisible := false;
      }
    }
  }
}
