/** `buildCategoryTree` (src/lib/category.ts): the fixed three-level forest
    built from a flat category list by three nested stable filters. */
module CategoryTree {
  import opened Common
  import opened CategoryTypes

  /** The filter condition used at every level: `cat.level === level`, and
      for levels 2 and 3 also `cat.parentId === parent.id`. */
  predicate Matches(c: Category, level: int, parent: Option<int>) {
    c.level == level && (parent.None? || c.parentId == parent)
  }

  /** `cs.filter(cat => Matches(cat, level, parent))`: a stable filter. */
  function Select(cs: seq<Category>, level: int, parent: Option<int>): (r: seq<Category>)
    ensures |r| <= |cs|
    ensures forall x :: x in r <==> x in cs && Matches(x, level, parent)
  {
    if cs == [] then []
    else (if Matches(cs[0], level, parent) then [cs[0]] else []) + Select(cs[1..], level, parent)
  }

  /** `Select` distributes over concatenation: it keeps the matching
      records of each part, in input order. Together with the single-record
      case this pins `Select` down as the order-preserving filter. */
  lemma {:induction false} SelectAppend(a: seq<Category>, b: seq<Category>, level: int, parent: Option<int>)
    ensures Select(a + b, level, parent) == Select(a, level, parent) + Select(b, level, parent)
  {
    if a == [] {
      assert a + b == b;
    } else {
      assert (a + b)[0] == a[0];
      assert (a + b)[1..] == a[1..] + b;
      SelectAppend(a[1..], b, level, parent);
    }
  }

  lemma SelectSingle(c: Category, level: int, parent: Option<int>)
    ensures Select([c], level, parent) == if Matches(c, level, parent) then [c] else []
  {
    assert [c][1..] == [];
  }

  /** The records held by a list of tree items, in item order. */
  function Cats(items: seq<TreeItem>): (r: seq<Category>)
    ensures |r| == |items|
    ensures forall i :: 0 <= i < |items| ==> r[i] == items[i].cat
  {
    if items == [] then [] else [items[0].cat] + Cats(items[1..])
  }

  /** Level-3 records become items without a `children` field. */
  function Leaves(ls: seq<Category>): (r: seq<TreeItem>)
    ensures Cats(r) == ls
    ensures forall i :: 0 <= i < |r| ==> r[i].Leaf?
  {
    if ls == [] then [] else [Leaf(ls[0])] + Leaves(ls[1..])
  }

  /** A level-2 record becomes a node whose `children` is the (possibly
      empty) list of level-3 records pointing at it. */
  function MidNode(all: seq<Category>, m: Category): TreeItem {
    Node(m, Leaves(Select(all, 3, Some(m.id))))
  }

  function Mids(all: seq<Category>, ms: seq<Category>): (r: seq<TreeItem>)
    ensures Cats(r) == ms
    ensures forall i :: 0 <= i < |r| ==> r[i] == MidNode(all, ms[i])
  {
    if ms == [] then [] else [MidNode(all, ms[0])] + Mids(all, ms[1..])
  }

  /** A level-1 record becomes a node whose `children` is the (possibly
      empty) list of level-2 records pointing at it. */
  function RootNode(all: seq<Category>, r: Category): TreeItem {
    Node(r, Mids(all, Select(all, 2, Some(r.id))))
  }

  function Roots(all: seq<Category>, rs: seq<Category>): (r: seq<TreeItem>)
    ensures Cats(r) == rs
    ensures forall i :: 0 <= i < |r| ==> r[i] == RootNode(all, rs[i])
  {
    if rs == [] then [] else [RootNode(all, rs[0])] + Roots(all, rs[1..])
  }

  /** The forest: roots are the level-1 records in input order; a root's
      children are the level-2 records whose parent id is the root's id, in
      input order; a level-2 node's children are the level-3 records whose
      parent id is its id, in input order. Levels 1 and 2 always carry a
      `children` array (empty when nothing matches), level 3 never does,
      and every record is copied with all its fields, `expanded` included. */
  function BuildCategoryTree(cs: seq<Category>): (r: seq<TreeItem>)
    ensures Cats(r) == Select(cs, 1, None)
    ensures forall i :: 0 <= i < |r| ==>
              r[i].Node? && Cats(r[i].children) == Select(cs, 2, Some(r[i].cat.id))
    ensures forall i, j :: 0 <= i < |r| && 0 <= j < |r[i].children| ==>
              r[i].children[j].Node?
              && Cats(r[i].children[j].children) == Select(cs, 3, Some(r[i].children[j].cat.id))
              && forall k :: 0 <= k < |r[i].children[j].children| ==> r[i].children[j].children[k].Leaf?
  {
    Roots(cs, Select(cs, 1, None))
  }

  /** The shape every item of a built forest has at depth `level`: its
      record is at that level, levels 1 and 2 carry a `children` array
      whose members point back at it and sit one level deeper, level 3
      carries none. */
  ghost predicate Layered(t: TreeItem, level: int)
    decreases t
  {
    && t.cat.level == level
    && (if level < 3 then
          t.Node? && forall c | c in t.children ::
            c.cat.parentId == Some(t.cat.id) && Layered(c, level + 1)
        else t.Leaf?)
  }

  lemma LayeredLeaves(ls: seq<Category>, pid: int)
    requires forall x :: x in ls ==> x.level == 3 && x.parentId == Some(pid)
    ensures forall c :: c in Leaves(ls) ==> c.cat.parentId == Some(pid) && Layered(c, 3)
  {
    var lv := Leaves(ls);
    forall c | c in lv
      ensures c.cat.parentId == Some(pid) && Layered(c, 3)
    {
      var i :| 0 <= i < |lv| && lv[i] == c;
      assert Cats(lv)[i] == c.cat;
      assert c.cat in ls;
    }
  }

  lemma LayeredMid(all: seq<Category>, m: Category)
    requires m.level == 2
    ensures Layered(MidNode(all, m), 2)
  {
    LayeredLeaves(Select(all, 3, Some(m.id)), m.id);
  }

  lemma LayeredMids(all: seq<Category>, ms: seq<Category>, pid: int)
    requires forall x :: x in ms ==> x.level == 2 && x.parentId == Some(pid)
    ensures forall c :: c in Mids(all, ms) ==> c.cat.parentId == Some(pid) && Layered(c, 2)
  {
    var mv := Mids(all, ms);
    forall c | c in mv
      ensures c.cat.parentId == Some(pid) && Layered(c, 2)
    {
      var i :| 0 <= i < |mv| && mv[i] == c;
      assert c == MidNode(all, ms[i]);
      assert ms[i] in ms;
      LayeredMid(all, ms[i]);
    }
  }

  lemma LayeredRoot(all: seq<Category>, r: Category)
    requires r.level == 1
    ensures Layered(RootNode(all, r), 1)
  {
    LayeredMids(all, Select(all, 2, Some(r.id)), r.id);
  }

  /** Every built root is `Layered` at level 1: every child's level is its
      parent's level + 1 and every child's `parentId` is its parent's id. */
  lemma {:induction false} BuildIsLayered(cs: seq<Category>)
    ensures forall t :: t in BuildCategoryTree(cs) ==> Layered(t, 1)
  {
    var rs := Select(cs, 1, None);
    var rv := Roots(cs, rs);
    assert BuildCategoryTree(cs) == rv;
    forall t | t in rv
      ensures Layered(t, 1)
    {
      var i :| 0 <= i < |rv| && rv[i] == t;
      assert t == RootNode(cs, rs[i]);
      assert rs[i] in rs;
      LayeredRoot(cs, rs[i]);
    }
  }

  // ---------------------------------------------------------------------
  // Which records survive: the flattened forest.

  lemma {:induction false} FlattenAppend(a: seq<TreeItem>, b: seq<TreeItem>)
    ensures Flatten(a + b) == Flatten(a) + Flatten(b)
  {
    if a == [] {
      assert a + b == b;
    } else {
      assert (a + b)[0] == a[0];
      assert (a + b)[1..] == a[1..] + b;
      FlattenAppend(a[1..], b);
    }
  }

  lemma {:induction false} FlattenLeaves(ls: seq<Category>)
    ensures Flatten(Leaves(ls)) == ls
  {
    if ls != [] {
      assert Leaves(ls)[1..] == Leaves(ls[1..]);
      FlattenLeaves(ls[1..]);
    }
  }

  /** The pre-order records of a list of level-2 nodes, written directly:
      each level-2 record followed by its level-3 records. */
  ghost function MidsFlat(all: seq<Category>, ms: seq<Category>): seq<Category> {
    if ms == [] then [] else [ms[0]] + Select(all, 3, Some(ms[0].id)) + MidsFlat(all, ms[1..])
  }

  lemma {:induction false} FlattenMidsIs(all: seq<Category>, ms: seq<Category>)
    ensures Flatten(Mids(all, ms)) == MidsFlat(all, ms)
  {
    if ms != [] {
      var mv := Mids(all, ms);
      assert mv[0] == MidNode(all, ms[0]);
      assert mv[1..] == Mids(all, ms[1..]);
      FlattenLeaves(Select(all, 3, Some(ms[0].id)));
      FlattenMidsIs(all, ms[1..]);
    }
  }

  /** The records under one level-2 node: itself, then its level-3 records. */
  ghost predicate InMidBlock(all: seq<Category>, m: Category, x: Category) {
    x == m || (x in all && Matches(x, 3, Some(m.id)))
  }

  lemma {:induction false} MidsFlatMembers(all: seq<Category>, ms: seq<Category>, x: Category)
    ensures x in MidsFlat(all, ms) <==> exists m :: m in ms && InMidBlock(all, m, x)
  {
    if ms != [] {
      var m0 := ms[0];
      MidsFlatMembers(all, ms[1..], x);
      assert MidsFlat(all, ms) == ([m0] + Select(all, 3, Some(m0.id))) + MidsFlat(all, ms[1..]);
      assert x in [m0] + Select(all, 3, Some(m0.id)) <==> InMidBlock(all, m0, x);
      if exists m :: m in ms && InMidBlock(all, m, x) {
        var m :| m in ms && InMidBlock(all, m, x);
        if m != m0 {
          assert m in ms[1..];
        }
      }
      if x in MidsFlat(all, ms[1..]) {
        var m :| m in ms[1..] && InMidBlock(all, m, x);
        assert m in ms;
      }
      if InMidBlock(all, m0, x) {
        assert m0 in ms;
      }
    }
  }

  /** The pre-order records of a list of roots, written directly. */
  ghost function RootsFlat(all: seq<Category>, rs: seq<Category>): seq<Category> {
    if rs == [] then []
    else [rs[0]] + MidsFlat(all, Select(all, 2, Some(rs[0].id))) + RootsFlat(all, rs[1..])
  }

  lemma {:induction false} FlattenRootsIs(all: seq<Category>, rs: seq<Category>)
    ensures Flatten(Roots(all, rs)) == RootsFlat(all, rs)
  {
    if rs != [] {
      var rv := Roots(all, rs);
      assert rv[0] == RootNode(all, rs[0]);
      assert rv[1..] == Roots(all, rs[1..]);
      FlattenMidsIs(all, Select(all, 2, Some(rs[0].id)));
      FlattenRootsIs(all, rs[1..]);
    }
  }

  /** The records under one root: itself, the level-2 records pointing at
      it, and the level-3 records pointing at one of those. */
  ghost predicate InRootBlock(all: seq<Category>, r: Category, x: Category) {
    x == r || exists m :: m in all && Matches(m, 2, Some(r.id)) && InMidBlock(all, m, x)
  }

  lemma RootBlockMembers(all: seq<Category>, r: Category, x: Category)
    ensures x in [r] + MidsFlat(all, Select(all, 2, Some(r.id))) <==> InRootBlock(all, r, x)
  {
    MidsFlatMembers(all, Select(all, 2, Some(r.id)), x);
  }

  lemma {:induction false} RootsFlatMembers(all: seq<Category>, rs: seq<Category>, x: Category)
    ensures x in RootsFlat(all, rs) <==> exists r :: r in rs && InRootBlock(all, r, x)
  {
    if rs != [] {
      RootsFlatMembers(all, rs[1..], x);
      RootBlockMembers(all, rs[0], x);
      assert RootsFlat(all, rs) == ([rs[0]] + MidsFlat(all, Select(all, 2, Some(rs[0].id)))) + RootsFlat(all, rs[1..]);
      if exists r :: r in rs && InRootBlock(all, r, x) {
        var r :| r in rs && InRootBlock(all, r, x);
        if r != rs[0] {
          assert r in rs[1..];
        }
      }
      if x in RootsFlat(all, rs[1..]) {
        var r :| r in rs[1..] && InRootBlock(all, r, x);
        assert r in rs;
      }
    }
  }

  /** A record reachable from a level-1 record of the list: level 1 itself,
      a level-2 record whose parent is a level-1 record, or a level-3 record
      whose parent is such a level-2 record. */
  ghost predicate Anchored(cs: seq<Category>, x: Category) {
    || x.level == 1
    || (x.level == 2 && exists r :: r in cs && r.level == 1 && x.parentId == Some(r.id))
    || (x.level == 3 && exists m :: m in cs && m.level == 2 && x.parentId == Some(m.id)
                                     && exists r :: r in cs && r.level == 1 && m.parentId == Some(r.id))
  }

  lemma AnchoredIffBlock(cs: seq<Category>, x: Category)
    ensures (x in cs && Anchored(cs, x)) <==> exists r :: r in Select(cs, 1, None) && InRootBlock(cs, r, x)
  {
    if x in cs && Anchored(cs, x) {
      AnchoredInBlock(cs, x);
    }
    if exists r :: r in Select(cs, 1, None) && InRootBlock(cs, r, x) {
      var r :| r in Select(cs, 1, None) && InRootBlock(cs, r, x);
      BlockAnchored(cs, r, x);
    }
  }

  lemma AnchoredInBlock(cs: seq<Category>, x: Category)
    requires x in cs && Anchored(cs, x)
    ensures exists r :: r in Select(cs, 1, None) && InRootBlock(cs, r, x)
  {
    if x.level == 1 {
      assert x in Select(cs, 1, None) && InRootBlock(cs, x, x);
    } else if x.level == 2 {
      var r :| r in cs && r.level == 1 && x.parentId == Some(r.id);
      assert InMidBlock(cs, x, x);
      assert r in Select(cs, 1, None) && InRootBlock(cs, r, x);
    } else {
      var m :| m in cs && m.level == 2 && x.parentId == Some(m.id)
               && exists r :: r in cs && r.level == 1 && m.parentId == Some(r.id);
      var r :| r in cs && r.level == 1 && m.parentId == Some(r.id);
      assert InMidBlock(cs, m, x);
      assert r in Select(cs, 1, None) && InRootBlock(cs, r, x);
    }
  }

  lemma BlockAnchored(cs: seq<Category>, r: Category, x: Category)
    requires r in Select(cs, 1, None) && InRootBlock(cs, r, x)
    ensures x in cs && Anchored(cs, x)
  {
    if x != r {
      var m :| m in cs && Matches(m, 2, Some(r.id)) && InMidBlock(cs, m, x);
      assert x in cs;
    }
  }

  /** The flattened forest holds exactly the anchored records of the input:
      orphans (a missing parent, or a parent at the wrong level) and records
      whose level is outside {1, 2, 3} appear nowhere. */
  lemma BuildKeepsExactlyAnchored(cs: seq<Category>)
    ensures forall x :: x in Flatten(BuildCategoryTree(cs)) <==> x in cs && Anchored(cs, x)
  {
    var rs := Select(cs, 1, None);
    assert BuildCategoryTree(cs) == Roots(cs, rs);
    FlattenRootsIs(cs, rs);
    forall x
      ensures x in RootsFlat(cs, rs) <==> x in cs && Anchored(cs, x)
    {
      RootsFlatMembers(cs, rs, x);
      AnchoredIffBlock(cs, x);
    }
  }

  // ---------------------------------------------------------------------
  // With unique ids no record is duplicated.

  ghost predicate UniqueIds(cs: seq<Category>) {
    forall i, j :: 0 <= i < |cs| && 0 <= j < |cs| && cs[i].id == cs[j].id ==> i == j
  }

  ghost predicate Distinct<T>(s: seq<T>) {
    forall i, j :: 0 <= i < j < |s| ==> s[i] != s[j]
  }

  lemma DistinctAppend<T>(a: seq<T>, b: seq<T>)
    requires Distinct(a) && Distinct(b)
    requires forall x :: x in a ==> x !in b
    ensures Distinct(a + b)
  {
    forall i, j | 0 <= i < j < |a + b|
      ensures (a + b)[i] != (a + b)[j]
    {
      if j >= |a| && i < |a| {
        assert (a + b)[i] in a;
        assert (a + b)[j] == b[j - |a|];
      }
    }
  }

  lemma {:induction false} SelectDistinct(cs: seq<Category>, level: int, parent: Option<int>)
    requires Distinct(cs)
    ensures Distinct(Select(cs, level, parent))
  {
    if cs != [] {
      assert Distinct(cs[1..]);
      SelectDistinct(cs[1..], level, parent);
      DistinctAppend(if Matches(cs[0], level, parent) then [cs[0]] else [], Select(cs[1..], level, parent));
    }
  }

  lemma UniqueIdsDistinct(cs: seq<Category>)
    requires UniqueIds(cs)
    ensures Distinct(cs)
  {
  }

  /** Two different records of a list with unique ids have different ids. */
  lemma IdsDiffer(cs: seq<Category>, x: Category, y: Category)
    requires UniqueIds(cs) && x in cs && y in cs
    ensures x != y ==> x.id != y.id
  {
    var i :| 0 <= i < |cs| && cs[i] == x;
    var j :| 0 <= j < |cs| && cs[j] == y;
  }

  lemma DistinctHead<T>(s: seq<T>, x: T)
    requires Distinct(s) && |s| > 0 && x in s[1..]
    ensures x != s[0]
  {
    var k :| 0 <= k < |s[1..]| && s[1..][k] == x;
    assert s[k + 1] == x;
  }

  lemma {:induction false} MidsFlatDistinct(all: seq<Category>, ms: seq<Category>)
    requires UniqueIds(all) && Distinct(ms)
    requires forall m :: m in ms ==> m in all && m.level == 2
    ensures Distinct(MidsFlat(all, ms))
  {
    if ms != [] {
      var m0 := ms[0];
      var rest := MidsFlat(all, ms[1..]);
      var leaves := Select(all, 3, Some(m0.id));
      assert m0 in ms;
      assert Distinct(ms[1..]);
      MidsFlatDistinct(all, ms[1..]);
      UniqueIdsDistinct(all);
      SelectDistinct(all, 3, Some(m0.id));
      DistinctAppend([m0], leaves);
      forall x | x in [m0] + leaves
        ensures x !in rest
      {
        MidsFlatMembers(all, ms[1..], x);
        forall m | m in ms[1..]
          ensures !InMidBlock(all, m, x)
        {
          assert m in ms;
          DistinctHead(ms, m);
          IdsDiffer(all, m, m0);
        }
      }
      DistinctAppend([m0] + leaves, rest);
    }
  }

  lemma {:induction false} RootsFlatDistinct(all: seq<Category>, rs: seq<Category>)
    requires UniqueIds(all) && Distinct(rs)
    requires forall r :: r in rs ==> r in all && r.level == 1
    ensures Distinct(RootsFlat(all, rs))
  {
    if rs != [] {
      var r0 := rs[0];
      var ms := Select(all, 2, Some(r0.id));
      var rest := RootsFlat(all, rs[1..]);
      var block := [r0] + MidsFlat(all, ms);
      assert r0 in rs;
      assert Distinct(rs[1..]);
      RootsFlatDistinct(all, rs[1..]);
      UniqueIdsDistinct(all);
      SelectDistinct(all, 2, Some(r0.id));
      MidsFlatDistinct(all, ms);
      MidsFlatMembers(all, ms, r0);
      DistinctAppend([r0], MidsFlat(all, ms));
      forall x | x in block
        ensures x !in rest
      {
        RootsFlatMembers(all, rs[1..], x);
        RootBlockMembers(all, r0, x);
        forall r | r in rs[1..]
          ensures !InRootBlock(all, r, x)
        {
          assert r in rs;
          DistinctHead(rs, r);
          RootBlocksDisjoint(all, r0, r, x);
        }
      }
      DistinctAppend(block, rest);
    }
  }

  /** No record lies under two different roots. */
  lemma RootBlocksDisjoint(all: seq<Category>, r0: Category, r: Category, x: Category)
    requires UniqueIds(all) && r0 in all && r in all && r0 != r
    requires r0.level == 1 && r.level == 1
    requires InRootBlock(all, r0, x)
    ensures !InRootBlock(all, r, x)
  {
    IdsDiffer(all, r, r0);
    forall m | m in all && Matches(m, 2, Some(r.id))
      ensures !InMidBlock(all, m, x)
    {
      if x != r0 {
        var m0 :| m0 in all && Matches(m0, 2, Some(r0.id)) && InMidBlock(all, m0, x);
        IdsDiffer(all, m, m0);
      }
    }
  }

  /** A duplicate-free list whose members all occur in `cs` is no longer
      than `cs`. */
  lemma DistinctSubLength<T>(f: seq<T>, cs: seq<T>)
    requires Distinct(f)
    requires forall x :: x in f ==> x in cs
    ensures |f| <= |cs|
  {
    DistinctCard(f);
    SetCardLe(cs);
    var sf := set x | x in f;
    var sc := set x | x in cs;
    assert sf <= sc;
    SubsetCard(sf, sc);
  }

  lemma {:induction false} SubsetCard<T>(a: set<T>, b: set<T>)
    requires a <= b
    ensures |a| <= |b|
    decreases a
  {
    if a != {} {
      var x :| x in a;
      SubsetCard(a - {x}, b - {x});
    }
  }

  lemma {:induction false} DistinctCard<T>(s: seq<T>)
    requires Distinct(s)
    ensures |(set x | x in s)| == |s|
  {
    if s != [] {
      assert Distinct(s[1..]);
      DistinctCard(s[1..]);
      assert (set x | x in s) == (set x | x in s[1..]) + {s[0]};
      assert s[0] !in (set x | x in s[1..]);
    }
  }

  lemma {:induction false} SetCardLe<T>(s: seq<T>)
    ensures |(set x | x in s)| <= |s|
  {
    if s != [] {
      SetCardLe(s[1..]);
      assert (set x | x in s) == (set x | x in s[1..]) + {s[0]};
    }
  }

  /** With unique ids every input record appears at most once in the
      forest, so the forest has at most as many nodes as the input has
      records. */
  lemma BuildNodeCountBound(cs: seq<Category>)
    requires UniqueIds(cs)
    ensures Distinct(Flatten(BuildCategoryTree(cs)))
    ensures |Flatten(BuildCategoryTree(cs))| <= |cs|
  {
    var rs := Select(cs, 1, None);
    var f := Flatten(BuildCategoryTree(cs));
    assert BuildCategoryTree(cs) == Roots(cs, rs);
    FlattenRootsIs(cs, rs);
    UniqueIdsDistinct(cs);
    SelectDistinct(cs, 1, None);
    RootsFlatDistinct(cs, rs);
    assert Distinct(f);
    BuildKeepsExactlyAnchored(cs);
    DistinctSubLength(f, cs);
  }
}
