/** The "edit category" dialog (src/components/category/EditCategoryModal.tsx):
    the draft seeded from the chosen record, the parent candidates it
    offers, and the PATCH request it sends. */
module EditCategoryModal {
  import opened Common
  import opened Text
  import opened CategoryTypes
  import opened AddCategoryModal

  /** The dialog's state: open flag, the name in the input and the parent's
      value string (`None` is `null`). */
  datatype EditModal = EditModal(open: bool, name: string, parent: Option<string>)

  /** The body of the PATCH request. `parentId == None` is an omitted field. */
  datatype CategoryPatch = CategoryPatch(id: int, name: string, parentId: Option<int>)

  /** The effect on the `category` prop: a record seeds the draft with its
      name and its parent id's string; `null` leaves the draft alone. */
  function Seed(m: EditModal, category: Option<Category>): (r: EditModal)
    ensures category.None? ==> r == m
    ensures category.Some? ==> r.name == category.value.name && r.open == m.open
    ensures category.Some? ==> (r.parent.None? <==> category.value.parentId.None?)
    ensures category.Some? && category.value.parentId.Some? ==>
              r.parent == Some(IdString(category.value.parentId.value))
  {
    match category
    case None => m
    case Some(c) =>
      var s := if c.parentId.Some? then IdString(c.parentId.value) else "";
      m.(name := c.name, parent := if s != "" then Some(s) else None)
  }

  /** `handleSubmit`: nothing without a record or with a blank name,
      otherwise the patch for the record's id. */
  function Submit(m: EditModal, category: Option<Category>): (r: Option<CategoryPatch>)
    ensures r.None? <==> category.None? || Trim(m.name) == ""
    ensures r.Some? ==> r.value.id == category.value.id && r.value.name == m.name
    ensures r.Some? && !TruthyString(m.parent) ==> r.value.parentId.None?
    ensures r.Some? && TruthyString(m.parent) ==> r.value.parentId == ParseInt(m.parent.value)
  {
    if category.None? || Trim(m.name) == "" then None
    else
      var pid := if TruthyString(m.parent) then ParseInt(m.parent.value) else None;
      Some(CategoryPatch(category.value.id, m.name, pid))
  }

  /** Saving a freshly seeded draft sends the record back unchanged: its
      id, its name and its parent id (including a parent id of 0, whose
      string "0" is truthy). */
  lemma SeedThenSubmit(m: EditModal, c: Category)
    requires Trim(c.name) != ""
    ensures Submit(Seed(m, Some(c)), Some(c)) == Some(CategoryPatch(c.id, c.name, c.parentId))
  {
    if c.parentId.Some? {
      ParseIntIdString(c.parentId.value);
      assert |IdString(c.parentId.value)| >= 1;
    }
  }

  /** The parent select is shown unless the record is at level 1 (also
      when there is no record). */
  predicate ShowsParentSelect(category: Option<Category>) {
    category.None? || category.value.level != 1
  }

  /** `category?.level || 3`: a missing record or a level of 0 counts as 3. */
  function LevelBound(category: Option<Category>): int {
    if category.None? || category.value.level == 0 then 3 else category.value.level
  }

  /** The select's test for one record: a strictly higher level than the
      edited record's bound, and not the record itself. */
  predicate Offered(x: Category, category: Option<Category>) {
    x.level < LevelBound(category) && (category.None? || x.id != category.value.id)
  }

  /** The filter itself, record by record. */
  function OfferedIn(parents: seq<Category>, category: Option<Category>): seq<Category> {
    if parents == [] then []
    else (if Offered(parents[0], category) then [parents[0]] else []) + OfferedIn(parents[1..], category)
  }

  lemma {:induction false} OfferedInMembers(parents: seq<Category>, category: Option<Category>)
    ensures |OfferedIn(parents, category)| <= |parents|
    ensures forall x :: x in OfferedIn(parents, category) <==> x in parents && Offered(x, category)
  {
    if parents != [] {
      OfferedInMembers(parents[1..], category);
      assert parents == [parents[0]] + parents[1..];
    }
  }

  lemma {:induction false} OfferedInAppend(a: seq<Category>, b: seq<Category>, category: Option<Category>)
    ensures OfferedIn(a + b, category) == OfferedIn(a, category) + OfferedIn(b, category)
  {
    if a != [] {
      assert (a + b)[0] == a[0];
      assert (a + b)[1..] == a[1..] + b;
      OfferedInAppend(a[1..], b, category);
    } else {
      assert a + b == b;
    }
  }

  /** The candidates the select offers: strictly higher levels than the
      record, and never the record itself. */
  function ParentOptions(parents: seq<Category>, category: Option<Category>): (r: seq<Category>)
    ensures |r| <= |parents|
    ensures forall x :: x in r <==>
              x in parents && x.level < LevelBound(category)
              && (category.Some? ==> x.id != category.value.id)
  {
    OfferedInMembers(parents, category);
    OfferedIn(parents, category)
  }

  /** The candidates keep the order of the list they are taken from, as
      `filter` does. */
  lemma ParentOptionsAppend(a: seq<Category>, b: seq<Category>, category: Option<Category>)
    ensures ParentOptions(a + b, category) == ParentOptions(a, category) + ParentOptions(b, category)
    ensures |a| == 1 ==> ParentOptions(a, category) == (if Offered(a[0], category) then a else [])
  {
    OfferedInAppend(a, b, category);
    if |a| == 1 {
      assert a[1..] == [];
    }
  }

  /** Editing a level-2 record offers level-1 records only; editing a
      level-3 record offers level-1 and level-2 records other than itself. */
  lemma OptionsForLevel(parents: seq<Category>, c: Category)
    requires forall x :: x in parents ==> x.level == 1 || x.level == 2
    ensures c.level == 2 ==> forall x :: x in ParentOptions(parents, Some(c)) <==> x in parents && x.level == 1 && x.id != c.id
    ensures c.level == 3 ==> forall x :: x in ParentOptions(parents, Some(c)) <==> x in parents && x.id != c.id
  {
  }

  /** The parent select's handler: the chosen value string becomes the
      parent; there is no "none" item here. */
  function ParentChosen(m: EditModal, value: string): (r: EditModal)
    ensures r.parent == Some(value)
    ensures r.open == m.open && r.name == m.name
  {
    m.(parent := Some(value))
  }

  /** Choosing one of the offered candidates sends its id as the new
      parent, together with the record's id and the name in the input. */
  lemma ChosenCandidateIsSent(m: EditModal, parents: seq<Category>, c: Category, p: Category)
    requires p in ParentOptions(parents, Some(c))
    requires Trim(m.name) != ""
    ensures Submit(ParentChosen(m, IdString(p.id)), Some(c)) == Some(CategoryPatch(c.id, m.name, Some(p.id)))
    ensures p.id != c.id
  {
    ParseIntIdString(p.id);
    assert |IdString(p.id)| >= 1;
  }

  /** The patch request succeeded: the dialog closes and keeps the draft. */
  function Succeeded(m: EditModal): (r: EditModal)
    ensures !r.open && r.name == m.name && r.parent == m.parent
  {
    m.(open := false)
  }
}
