/** The product list page (src/routes/index.tsx): the list query's
    parsing, the category path shown for a product, the search and category
    filters, the sort, the page slice and the pagination controls. */
module ProductList {
  import opened Common
  import opened Text

  // ---------------------------------------------------------------------
  // The list query

  datatype SortBy = Newest | Oldest | Asc | Desc

  /** The query parameters as strings; `None` is an absent parameter. */
  datatype RawQuery = RawQuery(
    categoryIds: Option<string>,
    page: Option<string>,
    limit: Option<string>,
    sortBy: Option<string>)

  /** The parsed query. A parsed number of `None` stands for `NaN`. */
  datatype ListQuery = ListQuery(
    categoryIds: Option<seq<Option<int>>>,
    page: Option<int>,
    limit: Option<int>,
    sortBy: SortBy)

  function SortByName(order: SortBy): string {
    match order
    case Newest => "newest"
    case Oldest => "oldest"
    case Asc => "asc"
    case Desc => "desc"
  }

  /** The enum's parser: exactly the four names are accepted. */
  function ParseSortBy(s: string): (r: Option<SortBy>)
    ensures r.Some? ==> SortByName(r.value) == s
    ensures forall order :: s == SortByName(order) ==> r == Some(order)
  {
    if s == "newest" then Some(Newest)
    else if s == "oldest" then Some(Oldest)
    else if s == "asc" then Some(Asc)
    else if s == "desc" then Some(Desc)
    else None
  }

  /** `pieces.map(id => Number.parseInt(id, 10))` */
  function ParseEach(pieces: seq<string>): (r: seq<Option<int>>)
    ensures |r| == |pieces|
    ensures forall k :: 0 <= k < |pieces| ==> r[k] == ParseInt(pieces[k])
  {
    if pieces == [] then [] else [ParseInt(pieces[0])] + ParseEach(pieces[1..])
  }

  /** A numeric parameter: parsed when truthy, the default otherwise. */
  function NumberParam(s: Option<string>, fallback: int): (r: Option<int>)
    ensures !TruthyString(s) ==> r == Some(fallback)
    ensures TruthyString(s) ==> r == ParseInt(s.value)
  {
    if TruthyString(s) then ParseInt(s.value) else Some(fallback)
  }

  /** `ProductListQuerySchema.parse`: `None` when `sortBy` is present but
      not one of the four names, which fails validation. */
  function ParseQuery(q: RawQuery): (r: Option<ListQuery>)
    ensures r.None? <==> q.sortBy.Some? && ParseSortBy(q.sortBy.value).None?
    ensures r.Some? ==> (r.value.categoryIds.None? <==> !TruthyString(q.categoryIds))
    ensures r.Some? && TruthyString(q.categoryIds) ==>
              r.value.categoryIds.value == ParseEach(Split(q.categoryIds.value, ','))
    ensures r.Some? ==> r.value.page == NumberParam(q.page, 1)
    ensures r.Some? ==> r.value.limit == NumberParam(q.limit, 15)
    ensures r.Some? && q.sortBy.None? ==> r.value.sortBy == Newest
  {
    var order := if q.sortBy.None? then Some(Newest) else ParseSortBy(q.sortBy.value);
    if order.None? then None
    else
      var ids := if TruthyString(q.categoryIds) then Some(ParseEach(Split(q.categoryIds.value, ','))) else None;
      Some(ListQuery(ids, NumberParam(q.page, 1), NumberParam(q.limit, 15), order.value))
  }

  /** The empty query: every default. */
  lemma EmptyQueryDefaults()
    ensures ParseQuery(RawQuery(None, None, None, None)) == Some(ListQuery(None, Some(1), Some(15), Newest))
  {
  }

  function IdStrings(ids: seq<int>): (r: seq<string>)
    ensures |r| == |ids|
    ensures forall k :: 0 <= k < |ids| ==> r[k] == IdString(ids[k])
  {
    if ids == [] then [] else [IdString(ids[0])] + IdStrings(ids[1..])
  }

  /** The query string a link would carry for these values. */
  function QueryOf(ids: seq<int>, page: int, limit: int, order: SortBy): RawQuery {
    RawQuery(
      if ids == [] then None else Some(Join(IdStrings(ids), ',')),
      Some(IdString(page)), Some(IdString(limit)), Some(SortByName(order)))
  }

  function AllParsed(ids: seq<int>): (r: seq<Option<int>>)
    ensures |r| == |ids|
    ensures forall k :: 0 <= k < |ids| ==> r[k] == Some(ids[k])
  {
    if ids == [] then [] else [Some(ids[0])] + AllParsed(ids[1..])
  }

  lemma IdStringNoComma(n: int)
    ensures ',' !in IdString(n)
  {
    var s := IdString(n);
    if n < 0 {
      var d := NatToString(-n);
      assert s == "-" + d;
      forall k | 0 < k < |s|
        ensures IsDigit(s[k])
      {
        assert s[k] == d[k - 1];
      }
      assert s[0] == '-';
    }
    assert forall k :: 0 <= k < |s| ==> s[k] == '-' || IsDigit(s[k]);
  }

  /** A non-empty id list survives `join(",")`, `split(",")` and
      `parseInt`. */
  lemma IdListRoundTrip(ids: seq<int>)
    requires ids != []
    ensures var j := Join(IdStrings(ids), ',');
            TruthyString(Some(j)) && ParseEach(Split(j, ',')) == AllParsed(ids)
  {
    var parts := IdStrings(ids);
    forall k | 0 <= k < |parts|
      ensures ',' !in parts[k]
    {
      IdStringNoComma(ids[k]);
    }
    SplitJoin(parts, ',');
    var j := Join(parts, ',');
    assert |j| >= |parts[0]| by {
      if |parts| > 1 {
        assert j == parts[0] + [','] + Join(parts[1..], ',');
      }
    }
    assert |parts[0]| >= 1;
    var parsed := ParseEach(Split(j, ','));
    forall k | 0 <= k < |ids|
      ensures parsed[k] == Some(ids[k])
    {
      ParseIntIdString(ids[k]);
    }
    assert parsed == AllParsed(ids);
  }

  /** Parsing the query of a link gives its values back: every id, the
      page, the limit and the sort order; an empty id list is absent. */
  lemma ParseQueryOf(ids: seq<int>, page: int, limit: int, order: SortBy)
    ensures ParseQuery(QueryOf(ids, page, limit, order))
         == Some(ListQuery(if ids == [] then None else Some(AllParsed(ids)), Some(page), Some(limit), order))
  {
    var q := QueryOf(ids, page, limit, order);
    NumberParamOfIdString(page, 1);
    NumberParamOfIdString(limit, 15);
    assert ParseSortBy(SortByName(order)) == Some(order);
    if ids != [] {
      IdListRoundTrip(ids);
      assert TruthyString(q.categoryIds);
    } else {
      assert !TruthyString(q.categoryIds);
    }
  }

  lemma NumberParamOfIdString(n: int, fallback: int)
    ensures NumberParam(Some(IdString(n)), fallback) == Some(n)
  {
    ParseIntIdString(n);
    assert IdString(n) != "" by {
      if n >= 0 {
        assert |NatToString(n)| >= 1;
      }
    }
  }

  // ---------------------------------------------------------------------
  // Category path

  /** The page's own category record (`mockCategories`). */
  datatype ListCategory = ListCategory(id: int, name: string, level: int, parentId: Option<int>)

  /** `cats.find(c => c.id === id)`; an absent id finds nothing. */
  function Lookup(cats: seq<ListCategory>, id: Option<int>): (r: Option<ListCategory>)
    ensures r.Some? ==> r.value in cats && id == Some(r.value.id)
    ensures r.None? <==> id.None? || forall c :: c in cats ==> c.id != id.value
  {
    if id.None? || cats == [] then None
    else if cats[0].id == id.value then Some(cats[0])
    else Lookup(cats[1..], id)
  }

  /** The names shown for a product's category; `None` is `undefined`. */
  datatype CategoryPath = CategoryPath(level1: string, level2: Option<string>, level3: Option<string>)

  const NoPath := CategoryPath("", None, None)

  /** `getCategoryPath`: the record's own name at its level, and the names
      of the parent and grandparent found above it. */
  function GetCategoryPath(cats: seq<ListCategory>, id: int): (r: CategoryPath)
    ensures Lookup(cats, Some(id)).None? ==> r == NoPath
    ensures r.level3.Some? <==> (var c := Lookup(cats, Some(id)); c.Some? && c.value.level == 3)
    ensures r.level3.Some? ==> r.level3.value == Lookup(cats, Some(id)).value.name
  {
    match Lookup(cats, Some(id))
    case None => NoPath
    case Some(c) =>
      if c.level == 3 then
        match Lookup(cats, c.parentId)
        case None => CategoryPath("", None, Some(c.name))
        case Some(p) =>
          match Lookup(cats, p.parentId)
          case None => CategoryPath("", Some(p.name), Some(c.name))
          case Some(g) => CategoryPath(g.name, Some(p.name), Some(c.name))
      else if c.level == 2 then
        match Lookup(cats, c.parentId)
        case None => CategoryPath("", Some(c.name), None)
        case Some(p) => CategoryPath(p.name, Some(c.name), None)
      else CategoryPath(c.name, None, None)
  }

  /** Every level-2 and level-3 record's parent is in the list, one level
      up. */
  predicate ParentsResolve(cats: seq<ListCategory>) {
    forall c :: c in cats && (c.level == 2 || c.level == 3) ==>
      var p := Lookup(cats, c.parentId);
      p.Some? && p.value.level == c.level - 1
  }

  /** In such a list the path names the record and its ancestors, one per
      level from the root down to the record, and nothing below it. */
  lemma PathFollowsParents(cats: seq<ListCategory>, c: ListCategory)
    requires ParentsResolve(cats)
    requires Lookup(cats, Some(c.id)) == Some(c)
    requires 1 <= c.level <= 3
    ensures c.level == 1 ==> GetCategoryPath(cats, c.id) == CategoryPath(c.name, None, None)
    ensures c.level == 2 ==>
              var p := Lookup(cats, c.parentId).value;
              GetCategoryPath(cats, c.id) == CategoryPath(p.name, Some(c.name), None)
    ensures c.level == 3 ==>
              var p := Lookup(cats, c.parentId).value;
              var g := Lookup(cats, p.parentId).value;
              GetCategoryPath(cats, c.id) == CategoryPath(g.name, Some(p.name), Some(c.name))
  {
    if c.level == 3 {
      var p := Lookup(cats, c.parentId).value;
      assert p in cats;
    }
  }

  // ---------------------------------------------------------------------
  // Filtering

  /** The fields of a product the list logic reads; `createdAt` is the
      creation time in milliseconds. */
  datatype Product = Product(id: int, name: string, categoryIds: seq<int>, createdAt: int)

  /** An empty search matches everything; otherwise the lower-cased name
      must contain the lower-cased search. */
  predicate MatchesSearch(p: Product, search: string) {
    search == "" || Includes(ToLower(p.name), ToLower(search))
  }

  lemma LowerIdempotent(s: string)
    ensures ToLower(ToLower(s)) == ToLower(s)
  {
  }

  /** Matching ignores the case of the search: a search and its lower-case
      form match the same products. */
  lemma SearchIgnoresCase(p: Product, search: string)
    ensures MatchesSearch(p, search) <==> MatchesSearch(p, ToLower(search))
  {
    LowerIdempotent(search);
    assert |ToLower(search)| == |search|;
  }

  /** One category id hits the filter when it is in the filter or its
      record's parent is. */
  predicate Hit(cats: seq<ListCategory>, filter: seq<int>, id: int) {
    id in filter || (var c := Lookup(cats, Some(id)); c.Some? && c.value.parentId.Some? && c.value.parentId.value in filter)
  }

  /** `product.categoryIds.some(...)` */
  function AnyHit(cats: seq<ListCategory>, filter: seq<int>, ids: seq<int>): (b: bool)
    ensures b <==> exists k :: 0 <= k < |ids| && Hit(cats, filter, ids[k])
  {
    if ids == [] then false
    else Hit(cats, filter, ids[0]) || AnyHit(cats, filter, ids[1..])
  }

  predicate MatchesCategory(p: Product, filter: seq<int>, cats: seq<ListCategory>) {
    filter == [] || AnyHit(cats, filter, p.categoryIds)
  }

  predicate Keep(p: Product, search: string, filter: seq<int>, cats: seq<ListCategory>) {
    MatchesSearch(p, search) && MatchesCategory(p, filter, cats)
  }

  /** `mockProducts.filter(...)`: the kept products, in order, each as
      often as in the input. */
  function FilterProducts(ps: seq<Product>, search: string, filter: seq<int>, cats: seq<ListCategory>): (r: seq<Product>)
    ensures |r| <= |ps|
    ensures forall p :: p in r <==> p in ps && Keep(p, search, filter, cats)
    ensures forall p :: Count(r, p) == if Keep(p, search, filter, cats) then Count(ps, p) else 0
  {
    if ps == [] then []
    else
      var rest := FilterProducts(ps[1..], search, filter, cats);
      if Keep(ps[0], search, filter, cats) then [ps[0]] + rest else rest
  }

  /** `filter` keeps list order: filtering two lists joined is filtering
      each and joining, and a single product is kept exactly when it
      passes both filters. */
  lemma {:induction false} FilterProductsAppend(a: seq<Product>, b: seq<Product>, search: string, filter: seq<int>, cats: seq<ListCategory>)
    ensures FilterProducts(a + b, search, filter, cats) == FilterProducts(a, search, filter, cats) + FilterProducts(b, search, filter, cats)
    ensures |a| == 1 ==> FilterProducts(a, search, filter, cats) == (if Keep(a[0], search, filter, cats) then a else [])
  {
    if a != [] {
      var h := if Keep(a[0], search, filter, cats) then [a[0]] else [];
      assert (a + b)[0] == a[0];
      assert (a + b)[1..] == a[1..] + b;
      assert FilterProducts(a + b, search, filter, cats) == h + FilterProducts(a[1..] + b, search, filter, cats);
      assert FilterProducts(a, search, filter, cats) == h + FilterProducts(a[1..], search, filter, cats);
      FilterProductsAppend(a[1..], b, search, filter, cats);
      assert h + (FilterProducts(a[1..], search, filter, cats) + FilterProducts(b, search, filter, cats)) == (h + FilterProducts(a[1..], search, filter, cats)) + FilterProducts(b, search, filter, cats);
      if |a| == 1 {
        assert a[1..] == [];
      }
    } else {
      assert a + b == b;
    }
  }

  /** A search no product matches filters everything out. */
  lemma NothingMatches(ps: seq<Product>, search: string, filter: seq<int>, cats: seq<ListCategory>)
    requires forall p :: p in ps ==> !MatchesSearch(p, search)
    ensures FilterProducts(ps, search, filter, cats) == []
  {
    if ps != [] {
      assert ps[0] in ps;
      assert forall p :: p in ps[1..] ==> p in ps;
      NothingMatches(ps[1..], search, filter, cats);
    }
  }

  /** The filter reaches one level up: filtering by a category's parent
      finds a product of that category, but filtering by its grandparent
      does not. */
  lemma FilterIsOneLevel(cats: seq<ListCategory>, c: ListCategory, parent: int, grandparent: int)
    requires Lookup(cats, Some(c.id)) == Some(c)
    requires c.parentId == Some(parent)
    requires grandparent != c.id && grandparent != parent
    ensures var p := Product(0, c.name, [c.id], 0);
            MatchesCategory(p, [parent], cats) && !MatchesCategory(p, [grandparent], cats)
  {
    var p := Product(0, c.name, [c.id], 0);
    assert Hit(cats, [parent], p.categoryIds[0]);
    assert !Hit(cats, [grandparent], p.categoryIds[0]);
  }

  // ---------------------------------------------------------------------
  // Sorting

  /** Code-unit lexicographic order, the stand-in for `localeCompare`. */
  predicate StrLe(a: string, b: string) {
    a == [] || (b != [] && (a[0] < b[0] || (a[0] == b[0] && StrLe(a[1..], b[1..]))))
  }

  lemma {:induction false} StrLeTotal(a: string, b: string)
    ensures StrLe(a, b) || StrLe(b, a)
  {
    if a != [] && b != [] && a[0] == b[0] {
      StrLeTotal(a[1..], b[1..]);
    }
  }

  lemma {:induction false} StrLeTrans(a: string, b: string, c: string)
    requires StrLe(a, b) && StrLe(b, c)
    ensures StrLe(a, c)
  {
    if a != [] && a[0] == b[0] && b[0] == c[0] {
      StrLeTrans(a[1..], b[1..], c[1..]);
    }
  }

  /** `a` may come before `b` under the chosen order: newest first, oldest
      first, or by name either way. */
  predicate Before(a: Product, b: Product, order: SortBy) {
    match order
    case Newest => a.createdAt >= b.createdAt
    case Oldest => a.createdAt <= b.createdAt
    case Asc => StrLe(a.name, b.name)
    case Desc => StrLe(b.name, a.name)
  }

  lemma BeforeTotal(a: Product, b: Product, order: SortBy)
    ensures Before(a, b, order) || Before(b, a, order)
  {
    StrLeTotal(a.name, b.name);
  }

  lemma BeforeTrans(a: Product, b: Product, c: Product, order: SortBy)
    requires Before(a, b, order) && Before(b, c, order)
    ensures Before(a, c, order)
  {
    if order == Asc {
      StrLeTrans(a.name, b.name, c.name);
    } else if order == Desc {
      StrLeTrans(c.name, b.name, a.name);
    }
  }

  /** Each product may come before the next. */
  predicate SortedBy(s: seq<Product>, order: SortBy) {
    forall i :: 0 <= i < |s| - 1 ==> Before(s[i], s[i + 1], order)
  }

  function Insert(x: Product, s: seq<Product>, order: SortBy): (r: seq<Product>)
    requires SortedBy(s, order)
    ensures SortedBy(r, order)
    ensures multiset(r) == multiset(s) + multiset{x}
    ensures |r| == |s| + 1
    ensures r[0] == x || (s != [] && r[0] == s[0])
  {
    if s == [] || Before(x, s[0], order) then [x] + s
    else
      var rest := Insert(x, s[1..], order);
      BeforeTotal(x, s[0], order);
      assert s == [s[0]] + s[1..];
      [s[0]] + rest
  }

  /** `[...filtered].sort(comparator)`: the same products, ordered. */
  function SortProducts(s: seq<Product>, order: SortBy): (r: seq<Product>)
    ensures SortedBy(r, order)
    ensures multiset(r) == multiset(s)
  {
    if s == [] then []
    else
      assert s == [s[0]] + s[1..];
      Insert(s[0], SortProducts(s[1..], order), order)
  }

  /** In a sorted list every product may come before every later one. */
  lemma {:induction false} SortedPairwise(s: seq<Product>, order: SortBy, i: int, j: int)
    requires SortedBy(s, order)
    requires 0 <= i < j < |s|
    ensures Before(s[i], s[j], order)
    decreases j - i
  {
    if j > i + 1 {
      SortedPairwise(s, order, i + 1, j);
      BeforeTrans(s[i], s[i + 1], s[j], order);
    }
  }

  // ---------------------------------------------------------------------
  // Paging

  /** `Math.ceil(total / pageSize)` for a non-negative total. */
  function PageCount(total: nat, pageSize: int): (r: nat)
    requires pageSize >= 1
    ensures r * pageSize >= total
    ensures (r - 1) * pageSize < total || r == 0
    ensures r == 0 <==> total == 0
  {
    if total == 0 then 0 else 1 + PageCount(if total <= pageSize then 0 else total - pageSize, pageSize)
  }

  /** `sorted.slice(start, start + pageSize)` with
      `start = (current - 1) * pageSize`. */
  function PageOf(s: seq<Product>, current: int, pageSize: int): (r: seq<Product>)
    requires pageSize >= 0
    ensures |r| <= pageSize
    ensures forall p :: p in r ==> p in s
  {
    var start := (current - 1) * pageSize;
    JsSlice(s, start, start + pageSize)
  }

  /** Page `k` is the run of the list from `(k - 1) * pageSize`, cut at
      the end of the list. */
  lemma PageOfSlice(s: seq<Product>, k: int, pageSize: int)
    requires pageSize >= 1 && k >= 1
    ensures 0 <= (k - 1) * pageSize && (k - 1) * pageSize + pageSize == k * pageSize
    ensures PageOf(s, k, pageSize) == s[Min((k - 1) * pageSize, |s|)..Min(k * pageSize, |s|)]
  {
    var start := (k - 1) * pageSize;
    MulMono(0, k - 1, pageSize);
    assert start + pageSize == k * pageSize;
    if start >= |s| {
      assert PageOf(s, k, pageSize) == [];
    }
  }

  /** A page in range is the next run of the list and is never empty. */
  lemma PageInRange(s: seq<Product>, current: int, pageSize: int)
    requires pageSize >= 1
    requires 1 <= current <= PageCount(|s|, pageSize)
    ensures (current - 1) * pageSize < |s|
    ensures PageOf(s, current, pageSize) == s[(current - 1) * pageSize .. Min(current * pageSize, |s|)]
    ensures PageOf(s, current, pageSize) != []
  {
    var n := PageCount(|s|, pageSize);
    MulMono(current - 1, n - 1, pageSize);
    PageOfSlice(s, current, pageSize);
    assert current * pageSize > (current - 1) * pageSize;
  }

  lemma MulMono(a: int, b: int, k: nat)
    requires a <= b
    ensures a * k <= b * k
  {
  }

  /** The pages 1 to k, one after another. */
  function PagesUpTo(s: seq<Product>, pageSize: int, k: nat): seq<Product>
    requires pageSize >= 1
  {
    if k == 0 then [] else PagesUpTo(s, pageSize, k - 1) + PageOf(s, k, pageSize)
  }

  lemma {:induction false} PagesUpToPrefix(s: seq<Product>, pageSize: int, k: nat)
    requires pageSize >= 1
    ensures PagesUpTo(s, pageSize, k) == s[..Min(k * pageSize, |s|)]
  {
    if k > 0 {
      PagesUpToPrefix(s, pageSize, k - 1);
      PageOfSlice(s, k, pageSize);
      var lo := Min((k - 1) * pageSize, |s|);
      var hi := Min(k * pageSize, |s|);
      assert 0 <= lo <= hi <= |s|;
      assert PagesUpTo(s, pageSize, k) == s[..lo] + s[lo..hi];
      PrefixThenRun(s, lo, hi);
    }
  }

  lemma PrefixThenRun<T>(s: seq<T>, lo: int, hi: int)
    requires 0 <= lo <= hi <= |s|
    ensures s[..lo] + s[lo..hi] == s[..hi]
  {
  }

  /** The pages together are the whole list, in order, each product once:
      nothing is skipped or shown twice. */
  lemma PagesCoverList(s: seq<Product>, pageSize: int)
    requires pageSize >= 1
    ensures PagesUpTo(s, pageSize, PageCount(|s|, pageSize)) == s
  {
    PagesUpToPrefix(s, pageSize, PageCount(|s|, pageSize));
  }

  // ---------------------------------------------------------------------
  // Pagination controls

  /** The previous button's target. */
  function PrevTarget(current: int): int {
    Max(1, current - 1)
  }

  /** The previous button ignores clicks on page 1. */
  predicate PrevDisabled(current: int) {
    current == 1
  }

  /** The next button's target as written. */
  function NextTargetAsWritten(current: int, pages: int): int {
    Min(pages, current + 1)
  }

  /** The next button's target with the lower bound of 1 added. */
  function NextTarget(current: int, pages: int): (r: int)
    ensures r >= 1
    ensures 1 <= current < pages ==> r == current + 1
    ensures pages >= 1 && current >= pages ==> r == pages
  {
    Max(1, Min(pages, current + 1))
  }

  /** The next button ignores clicks on the last page. */
  predicate NextDisabled(current: int, pages: int) {
    current == pages
  }

  /** `1, 2, ..., n` */
  function Range(lo: int, hi: int): (r: seq<int>)
    ensures |r| == (if hi >= lo then hi - lo + 1 else 0)
    ensures forall k :: 0 <= k < |r| ==> r[k] == lo + k
    decreases hi - lo + 1
  {
    if hi < lo then [] else [lo] + Range(lo + 1, hi)
  }

  /** The numbered links: the first five pages at most, then the last page
      when there are more than five. */
  function PageLinks(pages: int): (r: seq<int>)
    ensures forall k :: 0 <= k < |r| ==> 1 <= r[k] <= pages
    ensures forall k :: 0 <= k < |r| - 1 ==> r[k] < r[k + 1]
    ensures |r| <= 6
    ensures pages >= 1 ==> |r| >= 1
    ensures pages >= 1 ==> r[0] == 1 && r[|r| - 1] == pages
    ensures pages <= 0 ==> r == []
    ensures forall x :: 1 <= x <= pages && x <= 5 ==> x in r
  {
    var first := Range(1, Min(5, pages));
    if pages > 5 then
      first + [pages]
    else
      forall x | 1 <= x <= pages && x <= 5
        ensures x in first
      {
        assert first[x - 1] == x;
      }
      first
  }

  /** From a page in range the previous button moves back by one and
      never leaves the pages. */
  lemma PrevStaysInRange(current: int, pages: int)
    requires 1 <= current <= pages
    ensures 1 <= PrevTarget(current) <= pages
    ensures !PrevDisabled(current) ==> PrevTarget(current) == current - 1
  {
  }

  /** From a page in range the next button moves on by one and never
      leaves the pages; there both targets agree. */
  lemma NextStaysInRange(current: int, pages: int)
    requires 1 <= current <= pages
    ensures 1 <= NextTarget(current, pages) <= pages
    ensures !NextDisabled(current, pages) ==> NextTarget(current, pages) == current + 1
    ensures NextTarget(current, pages) == NextTargetAsWritten(current, pages)
  {
  }

  /** On a page beyond the fifth other than the last, no link is marked
      active. */
  lemma MiddlePagesHaveNoActiveLink(current: int, pages: int)
    requires 5 < current < pages
    ensures current !in PageLinks(pages)
  {
  }

  // ---------------------------------------------------------------------
  // The page

  const PageSize := 10

  /** The page's state: the filters, the pagination and the products
      shown. */
  datatype ListState = ListState(
    search: string,
    categoryIds: seq<int>,
    sortBy: SortBy,
    current: int,
    total: nat,
    shown: seq<Product>)

  function InitialState(all: seq<Product>): (r: ListState)
    ensures r.current == 1 && r.search == "" && r.categoryIds == [] && r.sortBy == Newest
    ensures r.total == |all| && r.shown == all
  {
    ListState("", [], Newest, 1, |all|, all)
  }

  function Listed(st: ListState, all: seq<Product>, cats: seq<ListCategory>): seq<Product> {
    SortProducts(FilterProducts(all, st.search, st.categoryIds, cats), st.sortBy)
  }

  /** The effect on the filters and the page: the current page of the
      sorted, filtered list is shown and the total is the filtered count. */
  function Refresh(st: ListState, all: seq<Product>, cats: seq<ListCategory>): (r: ListState)
    ensures r.(total := st.total, shown := st.shown) == st
    ensures r.total == |FilterProducts(all, st.search, st.categoryIds, cats)|
    ensures r.shown == PageOf(Listed(st, all, cats), st.current, PageSize)
    ensures |r.shown| <= PageSize
    ensures forall p :: p in r.shown ==> p in all && Keep(p, st.search, st.categoryIds, cats)
  {
    var filtered := FilterProducts(all, st.search, st.categoryIds, cats);
    var sorted := SortProducts(filtered, st.sortBy);
    assert forall p :: p in sorted ==> p in multiset(filtered);
    st.(total := |filtered|, shown := PageOf(sorted, st.current, PageSize))
  }

  /** `handleSearch`: a new search starts again at page 1. */
  function Search(st: ListState, value: string): (r: ListState)
    ensures r.search == value && r.current == 1
    ensures r.(search := st.search, current := st.current) == st
  {
    st.(search := value, current := 1)
  }

  /** `handlePaginationChange` */
  function PageChosen(st: ListState, page: int): (r: ListState)
    ensures r.current == page && r.(current := st.current) == st
  {
    st.(current := page)
  }

  function Pages(st: ListState): nat {
    PageCount(st.total, PageSize)
  }

  function PrevClicked(st: ListState): (r: ListState)
    ensures st.current == 1 ==> r == st
    ensures st.current != 1 ==> r.current >= 1
    ensures st.current > 1 ==> r.current == st.current - 1
    ensures r.(current := st.current) == st
  {
    if PrevDisabled(st.current) then st else PageChosen(st, PrevTarget(st.current))
  }

  function NextClickedAsWritten(st: ListState): (r: ListState)
    ensures st.current == Pages(st) ==> r == st
    ensures st.current < Pages(st) ==> r.current == st.current + 1
    ensures st.current > Pages(st) ==> r.current == Pages(st)
    ensures r.(current := st.current) == st
  {
    if NextDisabled(st.current, Pages(st)) then st
    else PageChosen(st, NextTargetAsWritten(st.current, Pages(st)))
  }

  function NextClicked(st: ListState): (r: ListState)
    ensures st.current >= 1 ==> r.current >= 1
    ensures st.current == Pages(st) ==> r == st
    ensures 1 <= st.current < Pages(st) ==> r.current == st.current + 1
    ensures r.(current := st.current) == st
  {
    if NextDisabled(st.current, Pages(st)) then st
    else PageChosen(st, NextTarget(st.current, Pages(st)))
  }

  /** After a search the first page of the matching products is shown,
      and the total counts them all. */
  lemma SearchShowsFirstPage(st: ListState, all: seq<Product>, cats: seq<ListCategory>, value: string)
    ensures var r := Refresh(Search(st, value), all, cats);
            var listed := Listed(r, all, cats);
            && r.current == 1
            && r.total == |listed|
            && r.shown == listed[..Min(PageSize, |listed|)]
  {
    var r := Refresh(Search(st, value), all, cats);
    var listed := Listed(r, all, cats);
    assert |listed| == |multiset(listed)|;
  }

  /** As written, a search that matches no product leaves the next button
      live, and it moves to page 0. */
  lemma NextPastEmptyList(all: seq<Product>, cats: seq<ListCategory>, search: string)
    requires forall p :: p in all ==> !MatchesSearch(p, search)
    ensures var st := Refresh(Search(InitialState(all), search), all, cats);
            && st.total == 0
            && NextClickedAsWritten(st).current == 0
  {
    NothingMatches(all, search, [], cats);
  }

  /** With the lower bound, next never leaves page 1 when nothing is
      listed, and from a page in range it stays in range. */
  lemma NextStaysOnAPage(st: ListState)
    requires st.current >= 1
    ensures Pages(st) == 0 ==> NextClicked(st).current == 1
    ensures st.current <= Pages(st) ==> 1 <= NextClicked(st).current <= Pages(st)
  {
  }

  // ---------------------------------------------------------------------
  // Price column

  function MaxOf(xs: seq<int>): (m: int)
    requires xs != []
    ensures m in xs
    ensures forall x :: x in xs ==> x <= m
  {
    if |xs| == 1 then xs[0]
    else
      assert xs == [xs[0]] + xs[1..];
      Max(xs[0], MaxOf(xs[1..]))
  }

  /** The price column: the first size option's price and the highest
      price. Without size options the source would fail; that is `None`. */
  function PriceRange(prices: seq<int>): (r: Option<(int, int)>)
    ensures r.None? <==> prices == []
    ensures r.Some? ==> r.value.0 == prices[0] && r.value.1 in prices
    ensures r.Some? ==> forall x :: x in prices ==> x <= r.value.1
  {
    if prices == [] then None else Some((prices[0], MaxOf(prices)))
  }

  /** The range never runs backwards. */
  lemma PriceRangeOrdered(prices: seq<int>)
    requires prices != []
    ensures PriceRange(prices).value.0 <= PriceRange(prices).value.1
  {
    assert prices[0] in prices;
  }
}
