/** The "new category" dialog (src/components/category/AddCategoryModal.tsx):
    a name, an optional parent chosen among the candidates, the level
    derived from that parent, and the resets on success and on dismissal. */
module AddCategoryModal {
  import opened Common
  import opened Text
  import opened CategoryTypes
  import opened CategorySection

  /** The dialog's state: open flag, the name typed so far and the chosen
      parent's value string (`None` is `null`: no parent chosen). */
  datatype AddModal = AddModal(open: bool, name: string, parent: Option<string>)

  const Closed := AddModal(false, "", None)

  /** The body of the POST request. `parentId == None` is an omitted field. */
  datatype NewCategory = NewCategory(key: string, name: string, parentId: Option<int>, level: int)

  /** The parent select's handler: the "none" item clears the parent. */
  function ParentChosen(m: AddModal, value: string): (r: AddModal)
    ensures value == "none" ==> r.parent.None?
    ensures value != "none" ==> r.parent == Some(value)
    ensures r.open == m.open && r.name == m.name
  {
    m.(parent := if value == "none" then None else Some(value))
  }

  /** The name input's handler: the draft's name becomes the text typed,
      and nothing else changes. */
  function NameTyped(m: AddModal, value: string): (r: AddModal)
    ensures r.name == value
    ensures r.open == m.open && r.parent == m.parent
  {
    m.(name := value)
  }

  /** The level a new record gets: 1 without a parent, 2 under a level-1
      candidate, and 3 otherwise — also when the value finds no candidate. */
  function NewLevel(parents: seq<Category>, parent: Option<string>): (r: int)
    ensures !TruthyString(parent) ==> r == 1
    ensures TruthyString(parent) ==> (r == 2 <==> (var f := FindByIdString(parents, parent.value); f.Some? && f.value.level == 1))
    ensures TruthyString(parent) ==> r == 2 || r == 3
  {
    if !TruthyString(parent) then 1
    else
      match FindByIdString(parents, parent.value)
      case Some(c) => if c.level == 1 then 2 else 3
      case None => 3
  }

  /** `handleSubmit`: no request for a blank name, otherwise the record to
      create. */
  function Submit(m: AddModal, parents: seq<Category>): (r: Option<NewCategory>)
    ensures r.None? <==> Trim(m.name) == ""
    ensures r.Some? ==> r.value.key == m.name && r.value.name == m.name
    ensures r.Some? ==> r.value.level == NewLevel(parents, m.parent)
    ensures r.Some? && !TruthyString(m.parent) ==> r.value.parentId.None?
    ensures r.Some? && TruthyString(m.parent) ==> r.value.parentId == ParseInt(m.parent.value)
  {
    if Trim(m.name) == "" then None
    else
      var pid := if TruthyString(m.parent) then ParseInt(m.parent.value) else None;
      Some(NewCategory(m.name, m.name, pid, NewLevel(parents, m.parent)))
  }

  /** A blank name — empty or white space only — never reaches the server. */
  lemma BlankNameSendsNothing(m: AddModal, parents: seq<Category>)
    ensures Submit(m, parents).None? <==> forall k :: 0 <= k < |m.name| ==> IsSpace(m.name[k])
  {
    BlankIffAllSpace(m.name);
  }

  /** Choosing a candidate creates the record one level below it, under it;
      choosing "none" creates a level-1 record without a parent. */
  lemma ChosenParentDecidesPlacement(m: AddModal, parents: seq<Category>, p: Category)
    requires Trim(m.name) != ""
    requires FindById(parents, p.id) == Some(p) && (p.level == 1 || p.level == 2)
    ensures var r := Submit(ParentChosen(m, IdString(p.id)), parents);
            r.Some? && r.value.parentId == Some(p.id) && r.value.level == p.level + 1
    ensures var r := Submit(ParentChosen(m, "none"), parents);
            r.Some? && r.value.parentId.None? && r.value.level == 1
  {
    assert IdString(p.id) != "none" by {
      assert IdString(p.id)[0] == '-' || IsDigit(IdString(p.id)[0]);
    }
    FindByIdStringOfId(parents, p.id);
    ParseIntIdString(p.id);
  }

  /** The request carries the text last typed, untrimmed, whatever was
      typed before. */
  lemma SubmitSeesLastName(m: AddModal, parents: seq<Category>, first: string, last: string)
    requires Trim(last) != ""
    ensures var r := Submit(NameTyped(NameTyped(m, first), last), parents);
            r.Some? && r.value.name == last && r.value.key == last
            && r.value.level == NewLevel(parents, m.parent)
  {
  }

  /** The trigger button opens the dialog; the draft is kept. */
  function Opened(m: AddModal): (r: AddModal)
    ensures r.open && r.name == m.name && r.parent == m.parent
  {
    m.(open := true)
  }

  /** The create request succeeded: `resetForm` clears the draft and
      closes. */
  function Succeeded(m: AddModal): (r: AddModal)
    ensures r == Closed
  {
    m.(name := "", parent := None, open := false)
  }

  /** The dialog itself asks to close (escape, overlay, close button): the
      handler closes and resets. */
  function Dismissed(m: AddModal): (r: AddModal)
    ensures r == Closed
  {
    m.(open := false, name := "", parent := None)
  }

  /** The cancel button only calls `onOpenChange(false)`: the dialog closes
      and the draft survives for the next opening. */
  function Cancelled(m: AddModal): (r: AddModal)
    ensures !r.open
    ensures r.name == m.name && r.parent == m.parent
  {
    m.(open := false)
  }

  /** Cancelling and reopening shows the abandoned draft, whereas a
      dismissal starts over. */
  lemma CancelKeepsDraft(m: AddModal)
    ensures Opened(Cancelled(m)).name == m.name && Opened(Cancelled(m)).parent == m.parent
    ensures Opened(Dismissed(m)).name == "" && Opened(Dismissed(m)).parent.None?
  {
  }
}
