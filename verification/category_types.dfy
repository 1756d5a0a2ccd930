/** The category record and the tree item built from it
    (src/components/category/type.ts), plus the two lookups every
    category view uses: find-by-id and the pre-order flattening. */
module CategoryTypes {
  import opened Common

  /** A flat category record. `level` is an `int` because the value comes
      from the server through an unchecked cast; only 1, 2 and 3 are
      well-typed (see `WellTyped`). `parentId == None` stands for both
      `null` and `undefined`. `expanded` is view state; an absent flag is
      modelled as `false`, which is how every reader of it treats it. */
  datatype Category = Category(
    id: int,
    key: string,
    name: string,
    level: int,
    parentId: Option<int>,
    expanded: bool)

  /** The declared type's restriction `level: 1 | 2 | 3`. */
  predicate WellTyped(c: Category) {
    c.level == 1 || c.level == 2 || c.level == 3
  }

  /** A `Category` plus an optional `children` array of the same type:
      `Leaf` is an item without the `children` field, `Node` one that has
      it (possibly empty). */
  datatype TreeItem =
    | Leaf(cat: Category)
    | Node(cat: Category, children: seq<TreeItem>)

  /** `category.children && category.children.length > 0` */
  predicate HasChildren(t: TreeItem) {
    t.Node? && |t.children| > 0
  }

  /** JavaScript truthiness of an optional numeric id: absent and 0 are falsy. */
  predicate TruthyId(p: Option<int>) {
    p.Some? && p.value != 0
  }

  /** `list.find(c => c.id === id)`: the first record with that id. */
  function FindById(cs: seq<Category>, id: int): (r: Option<Category>)
    ensures r.Some? ==> r.value in cs && r.value.id == id
    ensures r.None? <==> forall c :: c in cs ==> c.id != id
  {
    if cs == [] then None
    else if cs[0].id == id then Some(cs[0])
    else
      assert forall c :: c in cs[1..] ==> c in cs;
      FindById(cs[1..], id)
  }

  /** The record found is the first one with the id. */
  lemma {:induction false} FindByIdFirst(cs: seq<Category>, id: int)
    requires FindById(cs, id).Some?
    ensures exists k :: 0 <= k < |cs| && cs[k] == FindById(cs, id).value
                        && forall j :: 0 <= j < k ==> cs[j].id != id
  {
    if cs[0].id != id {
      FindByIdFirst(cs[1..], id);
      var k :| 0 <= k < |cs[1..]| && cs[1..][k] == FindById(cs[1..], id).value
               && forall j :: 0 <= j < k ==> cs[1..][j].id != id;
      assert cs[k + 1] == FindById(cs, id).value;
      forall j | 0 <= j < k + 1
        ensures cs[j].id != id
      {
        if j > 0 {
          assert cs[j] == cs[1..][j - 1];
        }
      }
    } else {
      assert cs[0] == FindById(cs, id).value;
    }
  }

  /** The category lists' view of a tree: the records in pre-order, each
      node before its children and the children before the next sibling.
      This is the order in which the product form's category selector
      renders a tree, and it is the behaviour assumed for the library's
      `flattenCategories`. */
  function Flatten(items: seq<TreeItem>): seq<Category>
    decreases items
  {
    if items == [] then []
    else FlattenNode(items[0]) + Flatten(items[1..])
  }

  function FlattenNode(t: TreeItem): seq<Category>
    decreases t
  {
    [t.cat] + (if t.Node? then Flatten(t.children) else [])
  }
}
