/** The product form's category selector
    (src/components/product/create/CategorySection.tsx): the option list
    rendered from the category tree, the name shown for the chosen value,
    and the ancestor chain written into the form's `categoryIds`. */
module CategorySection {
  import opened Common
  import opened CategoryTypes
  import opened CategoryTree
  import opened Text

  // ---------------------------------------------------------------------
  // Option list

  const Branch: string := "└─ "

  /** The caption prefix: nothing at level 1, a branch mark at level 2, and
      the branch mark behind four non-breaking spaces at every other level. */
  function Indentation(c: Category): string {
    if c.level == 1 then ""
    else if c.level == 2 then Branch
    else "\U{00A0} \U{00A0} \U{00A0} \U{00A0} " + Branch
  }

  /** One `SelectItem`: its value string, its caption and whether it can be
      chosen. */
  datatype SelectOption = SelectOption(value: string, caption: string, disabled: bool)

  /** The tree's items in pre-order, each paired with its own subtree. */
  function PreorderNodes(items: seq<TreeItem>): seq<TreeItem>
    decreases items
  {
    if items == [] then []
    else PreorderNode(items[0]) + PreorderNodes(items[1..])
  }

  function PreorderNode(t: TreeItem): seq<TreeItem>
    decreases t
  {
    [t] + (if t.Node? then PreorderNodes(t.children) else [])
  }

  lemma {:induction false} PreorderCats(items: seq<TreeItem>)
    ensures Cats(PreorderNodes(items)) == Flatten(items)
    decreases items
  {
    if items != [] {
      PreorderNodeCats(items[0]);
      PreorderCats(items[1..]);
      CatsAppend(PreorderNode(items[0]), PreorderNodes(items[1..]));
    }
  }

  lemma {:induction false} PreorderNodeCats(t: TreeItem)
    ensures Cats(PreorderNode(t)) == FlattenNode(t)
    decreases t
  {
    if t.Node? {
      PreorderCats(t.children);
      CatsAppend([t], PreorderNodes(t.children));
    } else {
      CatsAppend([t], []);
    }
  }

  lemma CatsAppend(a: seq<TreeItem>, b: seq<TreeItem>)
    ensures Cats(a + b) == Cats(a) + Cats(b)
  {
  }

  /** The option shown for a node: its id as the value, its name behind
      the level's indentation as the caption, and disabled exactly when it
      has children. */
  predicate OptionFor(o: SelectOption, n: TreeItem) {
    && o.value == IdString(n.cat.id)
    && o.caption == Indentation(n.cat) + n.cat.name
    && (o.disabled <==> HasChildren(n))
  }

  lemma OptionsConcat(r1: seq<SelectOption>, n1: seq<TreeItem>, r2: seq<SelectOption>, n2: seq<TreeItem>)
    requires |r1| == |n1| && |r2| == |n2|
    requires forall i :: 0 <= i < |r1| ==> OptionFor(r1[i], n1[i])
    requires forall i :: 0 <= i < |r2| ==> OptionFor(r2[i], n2[i])
    ensures forall i :: 0 <= i < |r1 + r2| ==> OptionFor((r1 + r2)[i], (n1 + n2)[i])
  {
    forall i | 0 <= i < |r1 + r2|
      ensures OptionFor((r1 + r2)[i], (n1 + n2)[i])
    {
      if i >= |r1| {
        assert (r1 + r2)[i] == r2[i - |r1|] && (n1 + n2)[i] == n2[i - |n1|];
      }
    }
  }

  /** `renderCategoryTree(items)`: one option per item, followed by the
      options of its `children` when the field is present. */
  function RenderOptions(items: seq<TreeItem>): (r: seq<SelectOption>)
    ensures |r| == |PreorderNodes(items)|
    ensures forall i :: 0 <= i < |r| ==> OptionFor(r[i], PreorderNodes(items)[i])
    decreases items
  {
    if items == [] then []
    else
      var t := items[0];
      var hasChildren := t.Node? && |t.children| > 0;
      var own := [SelectOption(IdString(t.cat.id), Indentation(t.cat) + t.cat.name, hasChildren)];
      var subNodes := if t.Node? then PreorderNodes(t.children) else [];
      var sub := if t.Node? then RenderOptions(t.children) else [];
      var rest := RenderOptions(items[1..]);
      assert PreorderNodes(items) == [t] + subNodes + PreorderNodes(items[1..]);
      assert OptionFor(own[0], t);
      OptionsConcat(own, [t], sub, subNodes);
      OptionsConcat(own + sub, [t] + subNodes, rest, PreorderNodes(items[1..]));
      own + sub + rest
  }

  /** The options follow the flattened order of the records. */
  lemma OptionsFollowFlatten(items: seq<TreeItem>)
    ensures |RenderOptions(items)| == |Flatten(items)|
    ensures forall i :: 0 <= i < |Flatten(items)| ==> RenderOptions(items)[i].value == IdString(Flatten(items)[i].id)
  {
    PreorderCats(items);
  }

  // ---------------------------------------------------------------------
  // Which records a built tree lets the user choose

  /** A subtree exactly as `BuildCategoryTree` produces it for `cs`. */
  ghost predicate Built(cs: seq<Category>, t: TreeItem) {
    || (t.cat.level == 1 && t == RootNode(cs, t.cat))
    || (t.cat.level == 2 && t == MidNode(cs, t.cat))
    || (t.cat.level == 3 && t == Leaf(t.cat))
  }

  lemma BuiltChildren(cs: seq<Category>, t: TreeItem)
    requires Built(cs, t)
    ensures t.Node? ==> forall c :: c in t.children ==> Built(cs, c)
  {
    if t.cat.level == 1 {
      RootChildrenBuilt(cs, t.cat);
    } else if t.cat.level == 2 {
      MidChildrenBuilt(cs, t.cat);
    }
  }

  lemma RootChildrenBuilt(cs: seq<Category>, r: Category)
    ensures forall c :: c in RootNode(cs, r).children ==> Built(cs, c)
  {
    var ms := Select(cs, 2, Some(r.id));
    var kids := Mids(cs, ms);
    forall c | c in kids
      ensures Built(cs, c)
    {
      var i :| 0 <= i < |kids| && kids[i] == c;
      assert c == MidNode(cs, ms[i]);
      assert ms[i] in ms;
    }
  }

  lemma MidChildrenBuilt(cs: seq<Category>, m: Category)
    ensures forall c :: c in MidNode(cs, m).children ==> Built(cs, c)
  {
    var ls := Select(cs, 3, Some(m.id));
    var kids := Leaves(ls);
    forall c | c in kids
      ensures Built(cs, c)
    {
      var i :| 0 <= i < |kids| && kids[i] == c;
      assert c.Leaf? && c.cat == ls[i];
      assert ls[i] in ls;
    }
  }

  lemma {:induction false} PreorderBuilt(cs: seq<Category>, items: seq<TreeItem>)
    requires forall t :: t in items ==> Built(cs, t)
    ensures forall n :: n in PreorderNodes(items) ==> Built(cs, n)
    decreases items
  {
    if items != [] {
      PreorderNodeBuilt(cs, items[0]);
      PreorderBuilt(cs, items[1..]);
    }
  }

  lemma {:induction false} PreorderNodeBuilt(cs: seq<Category>, t: TreeItem)
    requires Built(cs, t)
    ensures forall n :: n in PreorderNode(t) ==> Built(cs, n)
    decreases t
  {
    if t.Node? {
      BuiltChildren(cs, t);
      PreorderBuilt(cs, t.children);
    }
  }

  /** Some record of `cs` names `c` as its parent one level down. */
  ghost predicate HasChildRecord(cs: seq<Category>, c: Category) {
    exists y :: y in cs && y.level == c.level + 1 && y.parentId == Some(c.id)
  }

  lemma BuiltDisabled(cs: seq<Category>, n: TreeItem)
    requires Built(cs, n)
    ensures HasChildren(n) <==> n.cat.level < 3 && HasChildRecord(cs, n.cat)
  {
    if n.cat.level == 1 {
      var ms := Select(cs, 2, Some(n.cat.id));
      assert |n.children| == |ms|;
      if HasChildRecord(cs, n.cat) {
        var y :| y in cs && y.level == 2 && y.parentId == Some(n.cat.id);
        assert y in ms;
      }
      if |ms| > 0 {
        assert ms[0] in ms;
      }
    } else if n.cat.level == 2 {
      var ls := Select(cs, 3, Some(n.cat.id));
      assert |n.children| == |ls|;
      if HasChildRecord(cs, n.cat) {
        var y :| y in cs && y.level == 3 && y.parentId == Some(n.cat.id);
        assert y in ls;
      }
      if |ls| > 0 {
        assert ls[0] in ls;
      }
    }
  }

  lemma BuildBuilt(cs: seq<Category>)
    ensures forall t :: t in BuildCategoryTree(cs) ==> Built(cs, t)
  {
    var rs := Select(cs, 1, None);
    var tree := BuildCategoryTree(cs);
    assert tree == Roots(cs, rs);
    forall t | t in tree
      ensures Built(cs, t)
    {
      var k :| 0 <= k < |tree| && tree[k] == t;
      assert rs[k] in rs;
    }
  }

  /** In the selector built from a category list, an option is disabled
      exactly when its record is at level 1 or 2 and some record of the list
      sits directly below it; a level-3 record can always be chosen. */
  lemma BuiltOptionDisabledIff(cs: seq<Category>, i: int)
    requires 0 <= i < |RenderOptions(BuildCategoryTree(cs))|
    ensures var n := PreorderNodes(BuildCategoryTree(cs))[i];
            RenderOptions(BuildCategoryTree(cs))[i].disabled <==> n.cat.level < 3 && HasChildRecord(cs, n.cat)
  {
    var tree := BuildCategoryTree(cs);
    BuildBuilt(cs);
    PreorderBuilt(cs, tree);
    BuiltDisabled(cs, PreorderNodes(tree)[i]);
  }

  // ---------------------------------------------------------------------
  // Name shown for the chosen value

  /** `flat.find(cat => cat.id.toString() === key)` */
  function FindByIdString(cs: seq<Category>, key: string): (r: Option<Category>)
    ensures r.Some? ==> r.value in cs && IdString(r.value.id) == key
    ensures r.None? <==> forall c :: c in cs ==> IdString(c.id) != key
  {
    if cs == [] then None
    else if IdString(cs[0].id) == key then Some(cs[0])
    else
      assert forall c :: c in cs[1..] ==> c in cs;
      FindByIdString(cs[1..], key)
  }

  /** Looking up a rendered id finds the same record as looking up the id. */
  lemma {:induction false} FindByIdStringOfId(cs: seq<Category>, id: int)
    ensures FindByIdString(cs, IdString(id)) == FindById(cs, id)
  {
    if cs != [] {
      IdStringInjective(cs[0].id, id);
      FindByIdStringOfId(cs[1..], id);
    }
  }

  /** `getSelectedCategoryName(key)` */
  function SelectedName(tree: seq<TreeItem>, key: string): (r: string)
    ensures key == "" ==> r == ""
    ensures (forall c :: c in Flatten(tree) ==> IdString(c.id) != key) ==> r == ""
    ensures r != "" ==> exists c :: c in Flatten(tree) && IdString(c.id) == key && c.name == r
  {
    if key == "" then ""
    else
      match FindByIdString(Flatten(tree), key)
      case Some(c) => c.name
      case None => ""
  }

  /** After choosing the option of record `id`, the trigger shows the name
      of the first record with that id, and nothing when there is none. */
  lemma SelectedNameShowsChosen(tree: seq<TreeItem>, id: int)
    ensures SelectedName(tree, IdString(id)) ==
              match FindById(Flatten(tree), id)
              case Some(c) => c.name
              case None => ""
  {
    FindByIdStringOfId(Flatten(tree), id);
  }

  // ---------------------------------------------------------------------
  // Ancestor chain

  /** The walk up the parent links from `c` stops here: the parent id is
      falsy or names no record of `flat`. */
  predicate StopsAt(flat: seq<Category>, c: Category) {
    !TruthyId(c.parentId) || FindById(flat, c.parentId.value).None?
  }

  /** Position `i` of `ch` names a record of `flat` whose parent id is the
      (truthy) id one position earlier. */
  predicate LinkAt(flat: seq<Category>, ch: seq<int>, i: int) {
    && 0 < i < |ch|
    && FindById(flat, ch[i]).Some?
    && FindById(flat, ch[i]).value.parentId == Some(ch[i - 1])
    && ch[i - 1] != 0
  }

  /** `ch` is a root-first chain of ids in `flat`: every id finds a record,
      every later record's parent id is the previous id, and the walk from
      the first record stops. */
  predicate ChainOk(flat: seq<Category>, ch: seq<int>) {
    && |ch| > 0
    && FindById(flat, ch[0]).Some?
    && (forall i :: 0 < i < |ch| ==> LinkAt(flat, ch, i))
    && StopsAt(flat, FindById(flat, ch[0]).value)
  }

  lemma ChainStart(flat: seq<Category>, c: Category)
    requires FindById(flat, c.id) == Some(c) && StopsAt(flat, c)
    ensures ChainOk(flat, [c.id])
  {
  }

  lemma ChainExtend(flat: seq<Category>, ch: seq<int>, c: Category)
    requires ChainOk(flat, ch) && FindById(flat, c.id) == Some(c)
    requires c.parentId == Some(ch[|ch| - 1]) && ch[|ch| - 1] != 0
    ensures ChainOk(flat, ch + [c.id])
  {
    var ch2 := ch + [c.id];
    forall i | 0 < i < |ch2|
      ensures LinkAt(flat, ch2, i)
    {
      if i < |ch| {
        assert LinkAt(flat, ch, i);
        assert ch2[i] == ch[i] && ch2[i - 1] == ch[i - 1];
      }
    }
  }

  /** The ids `findParents` unshifts in front of `c`'s id, root first.
      `None` means the walk had not ended after `fuel` steps; the source
      recursion then never ends (it runs around a cycle of parent ids). */
  function Ancestors(flat: seq<Category>, c: Category, fuel: nat): (r: Option<seq<int>>)
    requires FindById(flat, c.id) == Some(c)
    ensures StopsAt(flat, c) ==> r == Some([])
    ensures r.Some? ==> |r.value| <= fuel
    ensures r.Some? && !StopsAt(flat, c) ==> r.value != [] && r.value[|r.value| - 1] == c.parentId.value
    decreases fuel
  {
    if !TruthyId(c.parentId) then Some([])
    else
      match FindById(flat, c.parentId.value)
      case None => Some([])
      case Some(p) =>
        if fuel == 0 then None
        else
          match Ancestors(flat, p, fuel - 1)
          case None => None
          case Some(a) => Some(a + [p.id])
  }

  /** Whatever the walk returns, followed by the starting id, is a chain. */
  lemma {:induction false} AncestorsChain(flat: seq<Category>, c: Category, fuel: nat)
    requires FindById(flat, c.id) == Some(c)
    ensures Ancestors(flat, c, fuel).Some? ==> ChainOk(flat, Ancestors(flat, c, fuel).value + [c.id])
    decreases fuel
  {
    if StopsAt(flat, c) {
      ChainStart(flat, c);
    } else if fuel > 0 {
      var p := FindById(flat, c.parentId.value).value;
      AncestorsChain(flat, p, fuel - 1);
      if Ancestors(flat, p, fuel - 1).Some? {
        var ch := Ancestors(flat, p, fuel - 1).value + [p.id];
        assert Ancestors(flat, c, fuel) == Some(ch);
        ChainExtend(flat, ch, c);
      }
    }
  }

  /** `findParentCategories(id)` over the flattened records: empty when no
      record has the id, and otherwise the record's id behind its
      ancestors. */
  function FindParentIn(flat: seq<Category>, id: int): (r: Option<seq<int>>)
    ensures FindById(flat, id).None? ==> r == Some([])
    ensures FindById(flat, id).Some? && r.Some? ==> r.value != [] && r.value[|r.value| - 1] == id
  {
    match FindById(flat, id)
    case None => Some([])
    case Some(c) =>
      match Ancestors(flat, c, |flat|)
      case None => None
      case Some(a) => Some(a + [c.id])
  }

  /** A non-empty result is a root-first chain of parent links. */
  lemma FindParentInChain(flat: seq<Category>, id: int)
    ensures var r := FindParentIn(flat, id);
            r.Some? && r.value != [] ==> ChainOk(flat, r.value)
  {
    if FindById(flat, id).Some? {
      AncestorsChain(flat, FindById(flat, id).value, |flat|);
    }
  }

  /** `findParentCategories(id)` on the tree the component receives. */
  function FindParentCategories(tree: seq<TreeItem>, id: int): (r: Option<seq<int>>)
    ensures FindById(Flatten(tree), id).None? ==> r == Some([])
    ensures r.Some? && r.value != [] ==> ChainOk(Flatten(tree), r.value) && r.value[|r.value| - 1] == id
  {
    FindParentInChain(Flatten(tree), id);
    FindParentIn(Flatten(tree), id)
  }

  /** The value handler: the chosen value string and the form's new
      `categoryIds`; `None` when the ancestor walk never ends. */
  datatype Selection = Selection(selected: string, categoryIds: seq<int>)

  function OnValueChange(tree: seq<TreeItem>, value: string): (r: Option<Selection>)
    ensures r.Some? ==> r.value.selected == value
    ensures ParseInt(value).None? ==> r == Some(Selection(value, []))
  {
    match ParseInt(value)
    case None => Some(Selection(value, []))
    case Some(id) =>
      match FindParentCategories(tree, id)
      case None => None
      case Some(ch) => Some(Selection(value, ch))
  }

  // Concrete walks of one, two and three records.

  lemma ChainOf1(flat: seq<Category>, r: Category)
    requires FindById(flat, r.id) == Some(r) && !TruthyId(r.parentId)
    ensures FindParentIn(flat, r.id) == Some([r.id])
  {
    assert Ancestors(flat, r, |flat|) == Some([]);
    assert [] + [r.id] == [r.id];
  }

  /** One step of the walk: a record whose truthy parent id finds `p`. */
  lemma AncestorsStep(flat: seq<Category>, c: Category, p: Category, fuel: nat, a: seq<int>)
    requires FindById(flat, c.id) == Some(c) && FindById(flat, p.id) == Some(p)
    requires c.parentId == Some(p.id) && p.id != 0 && fuel > 0
    requires Ancestors(flat, p, fuel - 1) == Some(a)
    ensures Ancestors(flat, c, fuel) == Some(a + [p.id])
  {
  }

  lemma FindParentInIs(flat: seq<Category>, c: Category, a: seq<int>)
    requires FindById(flat, c.id) == Some(c) && Ancestors(flat, c, |flat|) == Some(a)
    ensures FindParentIn(flat, c.id) == Some(a + [c.id])
  {
  }

  lemma ChainOf2(flat: seq<Category>, x: Category, r: Category)
    requires FindById(flat, x.id) == Some(x) && FindById(flat, r.id) == Some(r)
    requires x.parentId == Some(r.id) && r.id != 0 && !TruthyId(r.parentId)
    requires |flat| >= 2
    ensures FindParentIn(flat, x.id) == Some([r.id, x.id])
  {
    AncestorsStep(flat, x, r, |flat|, []);
    FindParentInIs(flat, x, [] + [r.id]);
    assert [] + [r.id] + [x.id] == [r.id, x.id];
  }

  lemma AncestorsOfMid(flat: seq<Category>, m: Category, r: Category, fuel: nat)
    requires FindById(flat, m.id) == Some(m) && FindById(flat, r.id) == Some(r)
    requires m.parentId == Some(r.id) && r.id != 0 && !TruthyId(r.parentId)
    requires fuel >= 1
    ensures Ancestors(flat, m, fuel) == Some([r.id])
  {
    AncestorsStep(flat, m, r, fuel, []);
    assert [] + [r.id] == [r.id];
  }

  lemma AncestorsOfLeaf(flat: seq<Category>, x: Category, m: Category, r: Category, fuel: nat)
    requires FindById(flat, x.id) == Some(x) && FindById(flat, m.id) == Some(m) && FindById(flat, r.id) == Some(r)
    requires x.parentId == Some(m.id) && m.id != 0
    requires m.parentId == Some(r.id) && r.id != 0 && !TruthyId(r.parentId)
    requires fuel >= 2
    ensures Ancestors(flat, x, fuel) == Some([r.id, m.id])
  {
    AncestorsOfMid(flat, m, r, fuel - 1);
    AncestorsStep(flat, x, m, fuel, [r.id]);
    assert [r.id] + [m.id] == [r.id, m.id];
  }

  lemma ChainOf3(flat: seq<Category>, x: Category, m: Category, r: Category)
    requires FindById(flat, x.id) == Some(x) && FindById(flat, m.id) == Some(m) && FindById(flat, r.id) == Some(r)
    requires x.parentId == Some(m.id) && m.id != 0
    requires m.parentId == Some(r.id) && r.id != 0 && !TruthyId(r.parentId)
    requires |flat| >= 3
    ensures FindParentIn(flat, x.id) == Some([r.id, m.id, x.id])
  {
    var a := [r.id, m.id];
    AncestorsOfLeaf(flat, x, m, r, |flat|);
    assert Ancestors(flat, x, |flat|) == Some(a);
    FindParentInIs(flat, x, a);
    assert a + [x.id] == [r.id, m.id, x.id];
  }

  // ---------------------------------------------------------------------
  // The chain for a tree built from a well-formed list

  /** The shape the server's category list is expected to have: distinct
      ids, ids that are truthy, and level-1 records without a parent. */
  ghost predicate WellFormedList(cs: seq<Category>) {
    && UniqueIds(cs)
    && (forall c :: c in cs ==> c.id != 0)
    && (forall c :: c in cs && c.level == 1 ==> !TruthyId(c.parentId))
  }

  lemma FindInSub(cs: seq<Category>, flat: seq<Category>, y: Category)
    requires UniqueIds(cs) && (forall z :: z in flat ==> z in cs) && y in flat
    ensures FindById(flat, y.id) == Some(y)
  {
    var z := FindById(flat, y.id).value;
    IdsDiffer(cs, z, y);
  }

  lemma ThreeDistinct(flat: seq<Category>, x: Category, m: Category, r: Category)
    requires x in flat && m in flat && r in flat
    requires x.level == 3 && m.level == 2 && r.level == 1
    ensures |flat| >= 3
  {
    assert Distinct([r, m, x]);
    DistinctSubLength([r, m, x], flat);
  }

  lemma TwoDistinct(flat: seq<Category>, x: Category, r: Category)
    requires x in flat && r in flat
    requires x.level == 2 && r.level == 1
    ensures |flat| >= 2
  {
    assert Distinct([r, x]);
    DistinctSubLength([r, x], flat);
  }

  /** The walk from a record of the built tree, with the level-1 record
      it ends at. */
  lemma BuiltPath(cs: seq<Category>, x: Category) returns (path: seq<int>, root: Category, mid: Category)
    requires WellFormedList(cs)
    requires x in Flatten(BuildCategoryTree(cs))
    ensures var flat := Flatten(BuildCategoryTree(cs));
            && FindParentIn(flat, x.id) == Some(path)
            && root in flat && root.level == 1 && FindById(flat, root.id) == Some(root)
            && mid in flat
            && 1 <= x.level <= 3
            && |path| == x.level && path[0] == root.id && path[|path| - 1] == x.id
            && (x.level == 1 ==> path == [x.id])
            && (x.level == 2 ==> path == [root.id, x.id])
            && (x.level == 3 ==> path == [root.id, mid.id, x.id])
  {
    var flat := Flatten(BuildCategoryTree(cs));
    BuiltMember(cs, x);
    BuiltWithin(cs);
    FindInSub(cs, flat, x);
    if x.level == 1 {
      ChainOf1(flat, x);
      path, root, mid := [x.id], x, x;
    } else if x.level == 2 {
      root := MidPath(cs, x);
      path, mid := [root.id, x.id], x;
    } else {
      root, mid := LeafPath(cs, x);
      path := [root.id, mid.id, x.id];
    }
  }

  lemma BuiltMember(cs: seq<Category>, y: Category)
    ensures y in Flatten(BuildCategoryTree(cs)) <==> y in cs && Anchored(cs, y)
  {
    BuildKeepsExactlyAnchored(cs);
  }

  lemma BuiltWithin(cs: seq<Category>)
    ensures forall z :: z in Flatten(BuildCategoryTree(cs)) ==> z in cs
  {
    BuildKeepsExactlyAnchored(cs);
  }

  lemma MidPath(cs: seq<Category>, x: Category) returns (root: Category)
    requires WellFormedList(cs)
    requires x in cs && x.level == 2 && Anchored(cs, x)
    ensures var flat := Flatten(BuildCategoryTree(cs));
            && root in flat && root.level == 1 && FindById(flat, root.id) == Some(root)
            && FindParentIn(flat, x.id) == Some([root.id, x.id])
  {
    var flat := Flatten(BuildCategoryTree(cs));
    var r :| r in cs && r.level == 1 && x.parentId == Some(r.id);
    BuiltMember(cs, r);
    BuiltMember(cs, x);
    BuiltWithin(cs);
    FindInSub(cs, flat, r);
    FindInSub(cs, flat, x);
    TwoDistinct(flat, x, r);
    ChainOf2(flat, x, r);
    root := r;
  }

  lemma LeafPath(cs: seq<Category>, x: Category) returns (root: Category, mid: Category)
    requires WellFormedList(cs)
    requires x in cs && x.level == 3 && Anchored(cs, x)
    ensures var flat := Flatten(BuildCategoryTree(cs));
            && root in flat && root.level == 1 && FindById(flat, root.id) == Some(root)
            && mid in flat
            && FindParentIn(flat, x.id) == Some([root.id, mid.id, x.id])
  {
    var flat := Flatten(BuildCategoryTree(cs));
    var m :| m in cs && m.level == 2 && x.parentId == Some(m.id)
             && exists r :: r in cs && r.level == 1 && m.parentId == Some(r.id);
    var r :| r in cs && r.level == 1 && m.parentId == Some(r.id);
    BuiltMember(cs, r);
    BuiltMember(cs, m);
    BuiltMember(cs, x);
    BuiltWithin(cs);
    FindInSub(cs, flat, m);
    FindInSub(cs, flat, r);
    FindInSub(cs, flat, x);
    ThreeDistinct(flat, x, m, r);
    ChainOf3(flat, x, m, r);
    root, mid := r, m;
  }

  /** Choosing a record of a tree built from a well-formed list writes the
      full root-first path into `categoryIds`: as many ids as the record's
      level, ending in the record's own id, starting at a level-1 record,
      each id the parent of the next. */
  lemma BuiltChain(cs: seq<Category>, x: Category)
    requires WellFormedList(cs)
    requires x in Flatten(BuildCategoryTree(cs))
    ensures var r := FindParentCategories(BuildCategoryTree(cs), x.id);
            var flat := Flatten(BuildCategoryTree(cs));
            && r.Some?
            && 1 <= x.level <= 3
            && |r.value| == x.level
            && r.value[|r.value| - 1] == x.id
            && ChainOk(flat, r.value)
            && FindById(flat, r.value[0]).value.level == 1
  {
    var flat := Flatten(BuildCategoryTree(cs));
    var path, root, mid := BuiltPath(cs, x);
    FindParentInChain(flat, x.id);
    assert FindParentCategories(BuildCategoryTree(cs), x.id) == Some(path);
    assert |path| == x.level && path[0] == root.id && path[|path| - 1] == x.id;
    assert FindById(flat, path[0]).value.level == 1;
  }

  /** Choosing the option of a record that its id finds shows the record's
      name and stores the path the walk returns. */
  lemma ChooseOption(tree: seq<TreeItem>, x: Category, path: seq<int>)
    requires FindById(Flatten(tree), x.id) == Some(x)
    requires FindParentCategories(tree, x.id) == Some(path)
    ensures OnValueChange(tree, IdString(x.id)) == Some(Selection(IdString(x.id), path))
    ensures SelectedName(tree, IdString(x.id)) == x.name
  {
    ParseIntIdString(x.id);
    SelectedNameShowsChosen(tree, x.id);
  }

  lemma FindBuilt(cs: seq<Category>, x: Category)
    requires UniqueIds(cs)
    requires x in Flatten(BuildCategoryTree(cs))
    ensures FindById(Flatten(BuildCategoryTree(cs)), x.id) == Some(x)
  {
    var flat := Flatten(BuildCategoryTree(cs));
    BuildKeepsExactlyAnchored(cs);
    assert forall z :: z in flat ==> z in cs;
    FindInSub(cs, flat, x);
  }

  /** The selector's round trip: choosing the option of a record of the
      built tree shows that record's name and stores its full path. */
  lemma ChooseBuiltOption(cs: seq<Category>, x: Category)
    requires WellFormedList(cs)
    requires x in Flatten(BuildCategoryTree(cs))
    ensures var s := OnValueChange(BuildCategoryTree(cs), IdString(x.id));
            && s.Some?
            && SelectedName(BuildCategoryTree(cs), s.value.selected) == x.name
            && 1 <= x.level <= 3
            && |s.value.categoryIds| == x.level
            && s.value.categoryIds[x.level - 1] == x.id
  {
    var tree := BuildCategoryTree(cs);
    BuiltChain(cs, x);
    var path := FindParentCategories(tree, x.id).value;
    FindBuilt(cs, x);
    ChooseOption(tree, x, path);
  }
}
