/** The category table's rows (src/components/category/CategoryRow.tsx):
    a level-1 row with its level-2 rows below it when expanded, a level-2
    row with its level-3 rows below it when expanded, and a level-3 row
    with nothing below it. */
module CategoryRows {
  import opened Common
  import opened CategoryTypes
  import opened CategoryTree

  /** Which of the three row components drew a line. */
  datatype RowKind = Level1Row | Level2Row | Level3Row

  /** A table line: the "no categories" line, or a category's line with the
      component that drew it and its expand button — `Some(expanded)` when
      the button is shown (the chevron points down when `expanded`), `None`
      when it is not. */
  datatype Row =
    | NoCategoryRow
    | CategoryLine(cat: Category, kind: RowKind, toggle: Option<bool>)

  /** The expand button is drawn exactly for items with a non-empty
      `children` array. */
  function ToggleOf(t: TreeItem): (r: Option<bool>)
    ensures r.Some? <==> HasChildren(t)
    ensures r.Some? ==> r.value == t.cat.expanded
  {
    if HasChildren(t) then Some(t.cat.expanded) else None
  }

  function Level3Line(t: TreeItem): Row {
    CategoryLine(t.cat, Level3Row, None)
  }

  /** One level-3 line per child, in the children's order. */
  function Level3Lines(items: seq<TreeItem>): (r: seq<Row>)
    ensures |r| == |items|
    ensures forall i :: 0 <= i < |items| ==> r[i] == Level3Line(items[i])
  {
    if items == [] then [] else [Level3Line(items[0])] + Level3Lines(items[1..])
  }

  /** `Level2CategoryRow`: its own line, then one level-3 line per child
      when it is expanded and has children. */
  function Level2Lines(t: TreeItem): (r: seq<Row>)
    ensures |r| >= 1 && r[0] == CategoryLine(t.cat, Level2Row, ToggleOf(t))
  {
    [CategoryLine(t.cat, Level2Row, ToggleOf(t))]
      + (if t.cat.expanded && HasChildren(t) then Level3Lines(t.children) else [])
  }

  function Level2Seq(items: seq<TreeItem>): seq<Row> {
    if items == [] then [] else Level2Lines(items[0]) + Level2Seq(items[1..])
  }

  /** `Level1CategoryRow`: its own line, then the level-2 rows of its
      children when it is expanded and has children. */
  function Level1Lines(t: TreeItem): (r: seq<Row>)
    ensures |r| >= 1 && r[0] == CategoryLine(t.cat, Level1Row, ToggleOf(t))
  {
    [CategoryLine(t.cat, Level1Row, ToggleOf(t))]
      + (if t.cat.expanded && HasChildren(t) then Level2Seq(t.children) else [])
  }

  /** `CategoryRow`: picks the component from the item's level. */
  function CategoryRowLines(t: TreeItem): (r: seq<Row>)
    ensures |r| >= 1 && r[0].CategoryLine? && r[0].cat == t.cat
    ensures t.cat.level == 1 ==> r[0].kind == Level1Row
    ensures t.cat.level == 2 ==> r[0].kind == Level2Row
    ensures t.cat.level != 1 && t.cat.level != 2 ==> r == [Level3Line(t)]
  {
    if t.cat.level == 1 then Level1Lines(t)
    else if t.cat.level == 2 then Level2Lines(t)
    else [Level3Line(t)]
  }

  function RowsSeq(items: seq<TreeItem>): seq<Row> {
    if items == [] then [] else CategoryRowLines(items[0]) + RowsSeq(items[1..])
  }

  /** The table body: the "no categories" line for an empty tree, and the
      rows of every top-level item otherwise. */
  function TableRows(tree: seq<TreeItem>): (r: seq<Row>)
    ensures tree == [] <==> r == [NoCategoryRow]
  {
    if tree == [] then [NoCategoryRow]
    else
      var r := RowsSeq(tree);
      assert CategoryRowLines(tree[0])[0].CategoryLine?;
      assert r[0] == CategoryRowLines(tree[0])[0];
      r
  }

  // ---------------------------------------------------------------------
  // Reference: the visible items

  /** The items a reader of the tree sees: every item, and the items below
      it only when it is expanded. */
  function Visible(items: seq<TreeItem>): seq<TreeItem>
    decreases items
  {
    if items == [] then [] else VisibleNode(items[0]) + Visible(items[1..])
  }

  function VisibleNode(t: TreeItem): seq<TreeItem>
    decreases t
  {
    [t] + (if t.Node? && t.cat.expanded then Visible(t.children) else [])
  }

  function KindOf(level: int): RowKind {
    if level == 1 then Level1Row else if level == 2 then Level2Row else Level3Row
  }

  /** The line each visible item should get: the component of its level
      and a button exactly when it has children. */
  function Lines(items: seq<TreeItem>): (r: seq<Row>)
    ensures |r| == |items|
    ensures forall i :: 0 <= i < |items| ==>
              r[i] == CategoryLine(items[i].cat, KindOf(items[i].cat.level), ToggleOf(items[i]))
  {
    if items == [] then [] else [CategoryLine(items[0].cat, KindOf(items[0].cat.level), ToggleOf(items[0]))] + Lines(items[1..])
  }

  lemma LinesAppend(a: seq<TreeItem>, b: seq<TreeItem>)
    ensures Lines(a + b) == Lines(a) + Lines(b)
  {
  }

  lemma {:induction false} Level3LinesVisible(items: seq<TreeItem>)
    requires forall t :: t in items ==> Layered(t, 3)
    ensures Level3Lines(items) == Lines(Visible(items))
    decreases items
  {
    if items != [] {
      var t := items[0];
      assert t in items;
      assert VisibleNode(t) == [t];
      Level3LinesVisible(items[1..]);
      LinesAppend(VisibleNode(t), Visible(items[1..]));
    }
  }

  lemma Level2LinesVisible(t: TreeItem)
    requires Layered(t, 2)
    ensures Level2Lines(t) == Lines(VisibleNode(t))
  {
    if t.cat.expanded {
      Level3LinesVisible(t.children);
      LinesAppend([t], Visible(t.children));
      if !HasChildren(t) {
        assert t.children == [];
      }
    }
  }

  lemma {:induction false} Level2SeqVisible(items: seq<TreeItem>)
    requires forall t :: t in items ==> Layered(t, 2)
    ensures Level2Seq(items) == Lines(Visible(items))
    decreases items
  {
    if items != [] {
      Level2LinesVisible(items[0]);
      Level2SeqVisible(items[1..]);
      LinesAppend(VisibleNode(items[0]), Visible(items[1..]));
    }
  }

  lemma Level1LinesVisible(t: TreeItem)
    requires Layered(t, 1)
    ensures Level1Lines(t) == Lines(VisibleNode(t))
  {
    if t.cat.expanded {
      Level2SeqVisible(t.children);
      LinesAppend([t], Visible(t.children));
      if !HasChildren(t) {
        assert t.children == [];
      }
    }
  }

  /** For a layered tree (the only shape `buildCategoryTree` produces) the
      table shows one line per visible item, in pre-order, each drawn by the
      component of its level and with a button exactly when the item has
      children. */
  lemma {:induction false} RowsAreVisibleLines(items: seq<TreeItem>)
    requires forall t :: t in items ==> Layered(t, 1)
    ensures RowsSeq(items) == Lines(Visible(items))
    decreases items
  {
    if items != [] {
      Level1LinesVisible(items[0]);
      RowsAreVisibleLines(items[1..]);
      LinesAppend(VisibleNode(items[0]), Visible(items[1..]));
    }
  }

  /** Nothing is hidden below an item with no expanded flag set anywhere. */
  ghost predicate AllCollapsed(items: seq<TreeItem>) {
    forall t :: t in items ==> !t.cat.expanded
  }

  lemma {:induction false} CollapsedShowsTopLevel(items: seq<TreeItem>)
    requires AllCollapsed(items)
    ensures Visible(items) == items
    decreases items
  {
    if items != [] {
      CollapsedShowsTopLevel(items[1..]);
    }
  }

  lemma BuiltRoots(cs: seq<Category>)
    ensures var tree := BuildCategoryTree(cs);
            && |tree| == |Select(cs, 1, None)|
            && forall i :: 0 <= i < |tree| ==>
                 tree[i].cat == Select(cs, 1, None)[i] && tree[i].cat in cs && Layered(tree[i], 1)
  {
    var tree := BuildCategoryTree(cs);
    var roots := Select(cs, 1, None);
    BuildIsLayered(cs);
    forall i | 0 <= i < |tree|
      ensures tree[i].cat == roots[i] && tree[i].cat in cs && Layered(tree[i], 1)
    {
      assert Cats(tree)[i] == roots[i];
      assert roots[i] in roots;
      assert tree[i] in tree;
    }
  }

  /** The table for a category list: with every flag cleared it shows
      exactly the level-1 records, in list order, and the "no categories"
      line when there is none. */
  lemma CollapsedTable(cs: seq<Category>)
    requires forall c :: c in cs ==> !c.expanded
    ensures var rows := TableRows(BuildCategoryTree(cs));
            var roots := Select(cs, 1, None);
            && (roots == [] ==> rows == [NoCategoryRow])
            && (roots != [] ==> |rows| == |roots| && forall i :: 0 <= i < |rows| ==>
                  rows[i] == CategoryLine(roots[i], Level1Row, ToggleOf(BuildCategoryTree(cs)[i])))
  {
    var tree := BuildCategoryTree(cs);
    var roots := Select(cs, 1, None);
    BuiltRoots(cs);
    if tree != [] {
      forall t | t in tree
        ensures Layered(t, 1) && !t.cat.expanded
      {
        var i :| 0 <= i < |tree| && tree[i] == t;
      }
      CollapsedShowsTopLevel(tree);
      RowsAreVisibleLines(tree);
      var rows := TableRows(tree);
      assert rows == Lines(tree);
      forall i | 0 <= i < |rows|
        ensures rows[i] == CategoryLine(roots[i], Level1Row, ToggleOf(tree[i]))
      {
        assert tree[i].cat == roots[i] && tree[i].cat.level == 1;
      }
    }
  }
}
