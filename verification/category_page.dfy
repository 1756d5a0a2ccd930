/** The category management page (src/routes/category.tsx): the records
    loaded from the server, the tree rebuilt from them, expanding and
    collapsing, the parent candidates handed to the modals, and which modal
    is open for which record. */
module CategoryPage {
  import opened Common
  import opened CategoryTypes
  import opened CategoryTree
  import opened CategoryRows

  // ---------------------------------------------------------------------
  // Loading

  /** The server records as the page stores them: every field copied and
      `expanded` cleared. */
  function Format(data: seq<Category>): (r: seq<Category>)
    ensures |r| == |data|
    ensures forall i :: 0 <= i < |data| ==> r[i] == data[i].(expanded := false)
  {
    if data == [] then [] else [data[0].(expanded := false)] + Format(data[1..])
  }

  /** `getCategoryParents()`: the records that may be chosen as a parent,
      in list order. */
  function ParentCandidates(cs: seq<Category>): (r: seq<Category>)
    ensures |r| <= |cs|
    ensures forall x :: x in r <==> x in cs && x.level < 3
  {
    if cs == [] then []
    else if cs[0].level < 3 then [cs[0]] + ParentCandidates(cs[1..])
    else ParentCandidates(cs[1..])
  }

  /** `filter` keeps list order: the candidates of two lists joined are
      the candidates of each, joined, and a single record is kept exactly
      when it is below level 3. */
  lemma {:induction false} ParentCandidatesAppend(a: seq<Category>, b: seq<Category>)
    ensures ParentCandidates(a + b) == ParentCandidates(a) + ParentCandidates(b)
    ensures |a| == 1 ==> ParentCandidates(a) == (if a[0].level < 3 then a else [])
  {
    if a != [] {
      var h := if a[0].level < 3 then [a[0]] else [];
      assert (a + b)[0] == a[0];
      assert (a + b)[1..] == a[1..] + b;
      assert ParentCandidates(a + b) == h + ParentCandidates(a[1..] + b);
      assert ParentCandidates(a) == h + ParentCandidates(a[1..]);
      ParentCandidatesAppend(a[1..], b);
      assert h + (ParentCandidates(a[1..]) + ParentCandidates(b)) == (h + ParentCandidates(a[1..])) + ParentCandidates(b);
      if |a| == 1 {
        assert a[1..] == [];
      }
    } else {
      assert a + b == b;
    }
  }

  // ---------------------------------------------------------------------
  // Expanding

  function Flip(c: Category, id: int): (r: Category)
    ensures r.id == c.id && r.key == c.key && r.name == c.name
    ensures r.level == c.level && r.parentId == c.parentId
    ensures r.expanded == (if c.id == id then !c.expanded else c.expanded)
  {
    if c.id == id then c.(expanded := !c.expanded) else c
  }

  /** `toggleExpand(id)` on the record list: the flag of every record with
      that id flips, nothing else changes. */
  function ToggleExpand(cs: seq<Category>, id: int): (r: seq<Category>)
    ensures |r| == |cs|
    ensures forall i :: 0 <= i < |cs| ==> r[i] == Flip(cs[i], id)
  {
    if cs == [] then [] else [Flip(cs[0], id)] + ToggleExpand(cs[1..], id)
  }

  /** Toggling twice restores the list. */
  lemma ToggleTwice(cs: seq<Category>, id: int)
    ensures ToggleExpand(ToggleExpand(cs, id), id) == cs
  {
  }

  /** Toggling an id no record has changes nothing. */
  lemma ToggleUnknown(cs: seq<Category>, id: int)
    requires forall c :: c in cs ==> c.id != id
    ensures ToggleExpand(cs, id) == cs
  {
    forall i | 0 <= i < |cs|
      ensures ToggleExpand(cs, id)[i] == cs[i]
    {
      assert cs[i] in cs;
    }
  }

  lemma ToggleAppend(a: seq<Category>, b: seq<Category>, id: int)
    ensures ToggleExpand(a + b, id) == ToggleExpand(a, id) + ToggleExpand(b, id)
  {
  }

  lemma {:induction false} SelectToggle(cs: seq<Category>, level: int, parent: Option<int>, id: int)
    ensures Select(ToggleExpand(cs, id), level, parent) == ToggleExpand(Select(cs, level, parent), id)
  {
    if cs != [] {
      var t := ToggleExpand(cs, id);
      assert t == [Flip(cs[0], id)] + ToggleExpand(cs[1..], id);
      SelectAppend([Flip(cs[0], id)], ToggleExpand(cs[1..], id), level, parent);
      SelectAppend([cs[0]], cs[1..], level, parent);
      assert cs == [cs[0]] + cs[1..];
      SelectSingle(Flip(cs[0], id), level, parent);
      SelectSingle(cs[0], level, parent);
      SelectToggle(cs[1..], level, parent, id);
      ToggleAppend(Select([cs[0]], level, parent), Select(cs[1..], level, parent), id);
    }
  }

  lemma {:induction false} MidsFlatToggle(all: seq<Category>, ms: seq<Category>, id: int)
    ensures MidsFlat(ToggleExpand(all, id), ToggleExpand(ms, id)) == ToggleExpand(MidsFlat(all, ms), id)
  {
    if ms != [] {
      var tms := ToggleExpand(ms, id);
      assert tms[1..] == ToggleExpand(ms[1..], id);
      SelectToggle(all, 3, Some(ms[0].id), id);
      MidsFlatToggle(all, ms[1..], id);
      ToggleAppend([ms[0]] + Select(all, 3, Some(ms[0].id)), MidsFlat(all, ms[1..]), id);
      ToggleAppend([ms[0]], Select(all, 3, Some(ms[0].id)), id);
    }
  }

  lemma {:induction false} RootsFlatToggle(all: seq<Category>, rs: seq<Category>, id: int)
    ensures RootsFlat(ToggleExpand(all, id), ToggleExpand(rs, id)) == ToggleExpand(RootsFlat(all, rs), id)
  {
    if rs != [] {
      var trs := ToggleExpand(rs, id);
      assert trs[1..] == ToggleExpand(rs[1..], id);
      var ms := Select(all, 2, Some(rs[0].id));
      SelectToggle(all, 2, Some(rs[0].id), id);
      MidsFlatToggle(all, ms, id);
      RootsFlatToggle(all, rs[1..], id);
      ToggleAppend([rs[0]] + MidsFlat(all, ms), RootsFlat(all, rs[1..]), id);
      ToggleAppend([rs[0]], MidsFlat(all, ms), id);
    }
  }

  /** Toggling moves nothing: the tree rebuilt from the toggled list holds
      the same records in the same places, with the flag of the toggled
      record flipped. */
  lemma ToggleKeepsTreeShape(cs: seq<Category>, id: int)
    ensures Flatten(BuildCategoryTree(ToggleExpand(cs, id))) == ToggleExpand(Flatten(BuildCategoryTree(cs)), id)
  {
    var tcs := ToggleExpand(cs, id);
    assert BuildCategoryTree(tcs) == Roots(tcs, Select(tcs, 1, None));
    assert BuildCategoryTree(cs) == Roots(cs, Select(cs, 1, None));
    FlattenRootsIs(tcs, Select(tcs, 1, None));
    FlattenRootsIs(cs, Select(cs, 1, None));
    SelectToggle(cs, 1, None, id);
    RootsFlatToggle(cs, Select(cs, 1, None), id);
  }

  // ---------------------------------------------------------------------
  // The page

  /** The page's state: the stored records, the tree shown, the three
      modals' open flags and the record the edit and delete modals act on. */
  datatype Page = Page(
    categories: seq<Category>,
    tree: seq<TreeItem>,
    addOpen: bool,
    editOpen: bool,
    deleteOpen: bool,
    current: Option<Category>)

  const InitialPage := Page([], [], false, false, false, None)

  /** The shown tree is the one built from the stored records. */
  predicate InSync(p: Page) {
    p.tree == BuildCategoryTree(p.categories)
  }

  /** The effect on `categories` as written: the tree is rebuilt only when
      the list is non-empty, so an empty list keeps the old tree. */
  function SyncTreeAsWritten(p: Page): (r: Page)
    ensures p.categories != [] ==> InSync(r)
    ensures p.categories == [] ==> r == p
  {
    if |p.categories| == 0 then p else p.(tree := BuildCategoryTree(p.categories))
  }

  /** The effect with the guard dropped: `BuildCategoryTree([])` is the
      empty tree, so the guard only ever kept a stale one. */
  function SyncTree(p: Page): (r: Page)
    ensures InSync(r)
    ensures r.categories == p.categories
  {
    p.(tree := BuildCategoryTree(p.categories))
  }

  /** The query result arrives (`None`: no result yet): the records are
      stored formatted, and the tree follows them unless the list is empty,
      in which case the tree on screen stays. */
  function Load(p: Page, data: Option<seq<Category>>): (r: Page)
    ensures data.None? ==> r == p
    ensures data.Some? ==> r.categories == Format(data.value)
    ensures data.Some? && data.value != [] ==> InSync(r)
    ensures data.Some? && data.value == [] ==> r.tree == p.tree
    ensures r.(categories := p.categories, tree := p.tree) == p
  {
    if data.None? then p else SyncTreeAsWritten(p.(categories := Format(data.value)))
  }

  /** The load with the guard dropped, the behaviour the page evidently
      intends. */
  function LoadCorrected(p: Page, data: Option<seq<Category>>): (r: Page)
    ensures data.Some? ==> r.categories == Format(data.value) && InSync(r)
    ensures data.None? ==> r == p
  {
    if data.None? then p else SyncTree(p.(categories := Format(data.value)))
  }

  /** The two loads differ only on an empty list: there the page as
      written keeps the old tree, which is stale exactly when it was not
      already empty. */
  lemma LoadAgreesUnlessEmpty(p: Page, data: seq<Category>)
    ensures data != [] ==> Load(p, Some(data)) == LoadCorrected(p, Some(data))
    ensures data == [] ==> (Load(p, Some(data)) == LoadCorrected(p, Some(data)) <==> p.tree == [])
  {
    if data == [] {
      assert Format(data) == [];
      assert BuildCategoryTree([]) == [];
    } else {
      assert |Format(data)| == |data|;
    }
  }

  /** A click on an expand button: the record's flag flips and the tree
      follows the toggled list, unless the list is empty. */
  function Toggle(p: Page, id: int): (r: Page)
    ensures r.categories == ToggleExpand(p.categories, id)
    ensures p.categories != [] ==> InSync(r)
    ensures p.categories == [] ==> r.tree == p.tree
    ensures r.(categories := p.categories, tree := p.tree) == p
  {
    SyncTreeAsWritten(p.(categories := ToggleExpand(p.categories, id)))
  }

  /** The edit button of a row: remembers the record and opens the edit
      modal. */
  function EditClicked(p: Page, c: Category): (r: Page)
    ensures r.current == Some(c) && r.editOpen
    ensures r.(current := p.current, editOpen := p.editOpen) == p
  {
    p.(current := Some(c), editOpen := true)
  }

  /** The delete button of a row: remembers the record and opens the
      delete modal. */
  function DeleteClicked(p: Page, c: Category): (r: Page)
    ensures r.current == Some(c) && r.deleteOpen
    ensures r.(current := p.current, deleteOpen := p.deleteOpen) == p
  {
    p.(current := Some(c), deleteOpen := true)
  }

  /** Loading a list shows every level-1 record collapsed, in list order,
      and the "no categories" line when it has none, as long as an empty
      list does not arrive while an older tree is on screen. */
  lemma LoadShowsRoots(p: Page, data: seq<Category>)
    requires data != [] || p.tree == []
    ensures var q := Load(p, Some(data));
            var roots := Select(q.categories, 1, None);
            var rows := TableRows(q.tree);
            && (roots == [] ==> rows == [NoCategoryRow])
            && (roots != [] ==> |rows| == |roots| && forall i :: 0 <= i < |rows| ==>
                  rows[i].CategoryLine? && rows[i].cat == roots[i] && rows[i].kind == Level1Row)
  {
    var q := Load(p, Some(data));
    if data == [] {
      assert q.categories == [] && q.tree == [];
    } else {
      forall c | c in q.categories
        ensures !c.expanded
      {
        var k :| 0 <= k < |q.categories| && q.categories[k] == c;
      }
      CollapsedTable(q.categories);
    }
  }

  /** Toggling keeps the page in sync and moves no record in the tree. */
  lemma ToggleKeepsPage(p: Page, id: int)
    requires InSync(p)
    ensures Flatten(Toggle(p, id).tree) == ToggleExpand(Flatten(p.tree), id)
  {
    if p.categories == [] {
      assert p.tree == [] && Toggle(p, id).tree == [];
    } else {
      assert |ToggleExpand(p.categories, id)| == |p.categories|;
      ToggleKeepsTreeShape(p.categories, id);
    }
  }

  // ---------------------------------------------------------------------
  // The stale tree

  const LastCategory := Category(1, "a", "a", 1, None, false)

  /** As written, deleting the last category leaves its row on screen: the
      refetched empty list is stored, but the tree built from the previous
      list stays. */
  lemma StaleTreeAfterLastDelete()
    ensures var p := Load(Load(InitialPage, Some([LastCategory])), Some([]));
            && p.categories == []
            && TableRows(p.tree) != [NoCategoryRow]
  {
    var p1 := Load(InitialPage, Some([LastCategory]));
    assert Format([LastCategory]) == [LastCategory];
    SelectSingle(LastCategory, 1, None);
    assert p1.tree == BuildCategoryTree([LastCategory]);
    assert |p1.tree| == 1;
    var p2 := Load(p1, Some([]));
    assert p2.tree == p1.tree;
  }

  /** With the guard dropped, an empty refetch shows the "no categories"
      line. */
  lemma EmptyLoadShowsNoCategory(p: Page)
    ensures TableRows(LoadCorrected(p, Some([])).tree) == [NoCategoryRow]
  {
    assert Select([], 1, None) == [];
  }
}
