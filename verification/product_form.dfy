/** The product form: its validation schema
    (src/components/product/create/types.ts, repeated in
    src/routes/product.create.tsx), the request built from it on create and
    on update (useCreateProduct.ts, useUpdateProduct.ts), the form reset
    from a fetched product, the loading flag and the update's error rule. */
module ProductForm {
  import opened Common
  import opened Text

  // ---------------------------------------------------------------------
  // The form

  /** `insertProductSchema`'s fields; numbers are integers here. */
  datatype ProductFields = ProductFields(
    name: string,
    description: Option<string>,
    sku: Option<string>,
    price: int,
    stock: int,
    status: bool,
    cost: Option<int>,
    bulkPrice: Option<string>,
    taxRate: Option<int>)

  /** `productVariantSchema`: one size row. */
  datatype Variant = Variant(size: string, price: int)

  /** An image as the form and the request carry it. */
  datatype ImageRef = ImageRef(url: string, displayOrder: int, kind: string)

  /** `CreateProductSchema`'s shape. */
  datatype FormData = FormData(
    product: ProductFields,
    details: Option<seq<Variant>>,
    categoryIds: Option<seq<int>>,
    images: Option<seq<ImageRef>>,
    brand: Option<string>,
    tags: Option<seq<string>>)

  /** The form's default values (the same in both hooks and the route). */
  const DefaultValues := FormData(
    ProductFields("", Some(""), Some(""), 0, 0, true, Some(0), Some(""), Some(0)),
    Some([]), Some([]), Some([]), Some(""), Some([]))

  predicate NonNegative(x: Option<int>) {
    x.None? || x.value >= 0
  }

  predicate ValidProduct(p: ProductFields) {
    |p.name| >= 1 && p.price > 0 && p.stock >= 0 && NonNegative(p.cost) && NonNegative(p.taxRate)
  }

  predicate ValidDetails(ds: Option<seq<Variant>>) {
    ds.None? || (|ds.value| <= 3 && forall k :: 0 <= k < |ds.value| ==> ds.value[k].price > 0)
  }

  predicate ValidForm(f: FormData) {
    ValidProduct(f.product) && ValidDetails(f.details) && (f.images.None? || |f.images.value| <= 5)
  }

  // ---------------------------------------------------------------------
  // Validation issues

  /** The schema's complaints, one per broken rule. */
  datatype Issue =
    | NameRequired
    | PriceNotPositive
    | StockNegative
    | CostNegative
    | TaxRateNegative
    | TooManyDetails
    | DetailPriceNotPositive(index: nat)
    | TooManyImages

  /** Whether the product fields break the rule `x` stands for. */
  predicate ProductBreaks(p: ProductFields, x: Issue) {
    match x
    case NameRequired => p.name == ""
    case PriceNotPositive => p.price <= 0
    case StockNegative => p.stock < 0
    case CostNegative => !NonNegative(p.cost)
    case TaxRateNegative => !NonNegative(p.taxRate)
    case _ => false
  }

  function ProductIssues(p: ProductFields): (r: seq<Issue>)
    ensures forall x :: x in r <==> ProductBreaks(p, x)
    ensures r == [] <==> ValidProduct(p)
  {
    var front := When(p.name == "", NameRequired) + When(p.price <= 0, PriceNotPositive);
    var back := When(p.stock < 0, StockNegative) + When(!NonNegative(p.cost), CostNegative)
                + When(!NonNegative(p.taxRate), TaxRateNegative);
    front + back
  }

  /** The complaint `x` when `failed`, nothing otherwise. */
  function When(failed: bool, x: Issue): (r: seq<Issue>)
    ensures forall y :: y in r <==> failed && y == x
    ensures r == [] <==> !failed
  {
    if failed then [x] else []
  }

  /** One complaint per size row, from `from` on, whose price is not
      positive. */
  function VariantIssues(ds: seq<Variant>, from: nat): (r: seq<Issue>)
    ensures forall k: nat :: DetailPriceNotPositive(k) in r <==> from <= k < from + |ds| && ds[k - from].price <= 0
    ensures forall i :: 0 <= i < |r| ==> r[i].DetailPriceNotPositive?
    ensures r == [] <==> forall k :: 0 <= k < |ds| ==> ds[k].price > 0
  {
    if ds == [] then []
    else
      var rest := VariantIssues(ds[1..], from + 1);
      assert forall k :: 1 <= k < |ds| ==> ds[1..][k - 1] == ds[k];
      if ds[0].price <= 0 then [DetailPriceNotPositive(from)] + rest else rest
  }

  /** Whether the size rows break the rule `x` stands for. */
  predicate DetailsBreak(ds: Option<seq<Variant>>, x: Issue) {
    match x
    case TooManyDetails => ds.Some? && |ds.value| > 3
    case DetailPriceNotPositive(k) => ds.Some? && k < |ds.value| && ds.value[k].price <= 0
    case _ => false
  }

  function DetailIssues(ds: Option<seq<Variant>>): (r: seq<Issue>)
    ensures forall x :: x in r <==> DetailsBreak(ds, x)
    ensures r == [] <==> ValidDetails(ds)
  {
    if ds.None? then []
    else
      var v := VariantIssues(ds.value, 0);
      assert forall x :: x in v ==> x.DetailPriceNotPositive?;
      When(|ds.value| > 3, TooManyDetails) + v
  }

  /** Whether the form breaks the rule `x` stands for. */
  predicate Breaks(f: FormData, x: Issue) {
    || ProductBreaks(f.product, x)
    || DetailsBreak(f.details, x)
    || (x == TooManyImages && f.images.Some? && |f.images.value| > 5)
  }

  /** `CreateProductSchema.safeParse`: the list of complaints, exactly one
      for each broken rule. */
  function Issues(f: FormData): (r: seq<Issue>)
    ensures forall x :: x in r <==> Breaks(f, x)
    ensures r == [] <==> ValidForm(f)
  {
    ProductIssues(f.product) + DetailIssues(f.details) + When(f.images.Some? && |f.images.value| > 5, TooManyImages)
  }

  /** The defaults are not a valid product: the name is empty and the
      price is 0, and nothing else is wrong. */
  lemma DefaultsRejected()
    ensures Issues(DefaultValues) == [NameRequired, PriceNotPositive]
  {
  }

  // ---------------------------------------------------------------------
  // The request

  /** `s || ""` */
  function OrEmpty(s: Option<string>): (r: string)
    ensures s.None? ==> r == ""
    ensures s.Some? ==> r == s.value
  {
    if s.Some? && s.value != "" then s.value else ""
  }

  datatype ProductPayload = ProductPayload(
    name: string,
    subName: string,
    shortDescription: string,
    description: string,
    isVisible: bool)

  /** The body of the create (POST) and update (PATCH) requests. */
  datatype RequestBody = RequestBody(
    product: ProductPayload,
    details: seq<Variant>,
    categoryIds: seq<int>,
    images: seq<ImageRef>)

  /** The `params` both `onSubmit`s build: the SKU doubles as sub-name and
      short description, and the single size row is the size text with the
      price. */
  function Payload(f: FormData): (r: RequestBody)
    ensures r.product.name == f.product.name
    ensures r.product.subName == OrEmpty(f.product.sku) && r.product.shortDescription == OrEmpty(f.product.sku)
    ensures r.product.description == OrEmpty(f.product.description)
    ensures r.product.isVisible == f.product.status
    ensures r.details == [Variant(OrEmpty(f.product.bulkPrice), f.product.price)]
    ensures r.categoryIds == f.categoryIds.GetOr([])
    ensures r.images == f.images.GetOr([])
  {
    var p := f.product;
    RequestBody(
      ProductPayload(p.name, OrEmpty(p.sku), OrEmpty(p.sku), OrEmpty(p.description), p.status),
      [Variant(OrEmpty(p.bulkPrice), p.price)],
      f.categoryIds.GetOr([]),
      f.images.GetOr([]))
  }

  /** The form's own size rows, stock, cost, tax rate, brand and tags never
      reach the request. */
  lemma PayloadIgnoresUnsentFields(f: FormData, ds: Option<seq<Variant>>, stock: int, cost: Option<int>, taxRate: Option<int>)
    ensures Payload(f.(details := ds, brand := None, tags := None,
                       product := f.product.(stock := stock, cost := cost, taxRate := taxRate)))
         == Payload(f)
  {
  }

  // ---------------------------------------------------------------------
  // Reset from a fetched product

  /** The product is fetched only for a non-zero id. */
  predicate FetchEnabled(productId: int) {
    productId != 0
  }

  datatype CategoryLink = CategoryLink(categoryId: int)

  datatype ResponseImage = ResponseImage(id: int, url: string, displayOrder: int, kind: string)

  /** The fields of a fetched product the form reads; `None` is absent. */
  datatype ProductRecord = ProductRecord(
    name: Option<string>,
    description: Option<string>,
    subName: Option<string>,
    isVisible: Option<bool>,
    details: Option<seq<Variant>>,
    categories: Option<seq<CategoryLink>>,
    images: Option<seq<ResponseImage>>)

  function CategoryIdsOf(cs: seq<CategoryLink>): (r: seq<int>)
    ensures |r| == |cs|
    ensures forall k :: 0 <= k < |cs| ==> r[k] == cs[k].categoryId
  {
    if cs == [] then [] else [cs[0].categoryId] + CategoryIdsOf(cs[1..])
  }

  function ImageRefsOf(imgs: seq<ResponseImage>): (r: seq<ImageRef>)
    ensures |r| == |imgs|
    ensures forall k :: 0 <= k < |imgs| ==> r[k] == ImageRef(imgs[k].url, imgs[k].displayOrder, imgs[k].kind)
  {
    if imgs == [] then [] else [ImageRef(imgs[0].url, imgs[0].displayOrder, imgs[0].kind)] + ImageRefsOf(imgs[1..])
  }

  /** `form.reset(...)` from a fetched product. */
  function ResetFrom(rec: ProductRecord): (f: FormData)
    ensures f.product.name == OrEmpty(rec.name) && f.product.description == Some(OrEmpty(rec.description))
    ensures f.product.sku == Some(OrEmpty(rec.subName))
    ensures f.product.status == rec.isVisible.GetOr(true)
    ensures rec.details.None? || rec.details.value == [] ==>
              f.product.price == 0 && f.product.bulkPrice == Some("")
    ensures rec.details.Some? && rec.details.value != [] ==>
              f.product.price == rec.details.value[0].price
              && f.product.bulkPrice == Some(rec.details.value[0].size)
    ensures f.product.stock == 0 && f.product.cost == Some(0) && f.product.taxRate == Some(0)
    ensures f.details == Some(rec.details.GetOr([]))
    ensures f.categoryIds == Some(if rec.categories.Some? then CategoryIdsOf(rec.categories.value) else [])
    ensures f.images == Some(if rec.images.Some? then ImageRefsOf(rec.images.value) else [])
  {
    var first := if rec.details.Some? && rec.details.value != [] then Some(rec.details.value[0]) else None;
    FormData(
      ProductFields(
        OrEmpty(rec.name),
        Some(OrEmpty(rec.description)),
        Some(OrEmpty(rec.subName)),
        if first.Some? && first.value.price != 0 then first.value.price else 0,
        0,
        rec.isVisible.GetOr(true),
        Some(0),
        Some(if first.Some? then OrEmpty(Some(first.value.size)) else ""),
        Some(0)),
      Some(rec.details.GetOr([])),
      Some(if rec.categories.Some? then CategoryIdsOf(rec.categories.value) else []),
      Some(if rec.images.Some? then ImageRefsOf(rec.images.value) else []),
      Some(""),
      Some([]))
  }

  /** The effect on the fetched data: a product resets the form, no data
      leaves it alone. */
  function OnProductData(f: FormData, data: Option<ProductRecord>): (r: FormData)
    ensures data.None? ==> r == f
    ensures data.Some? ==> r == ResetFrom(data.value)
  {
    if data.Some? then ResetFrom(data.value) else f
  }

  function LinksOf(ids: seq<int>): (r: seq<CategoryLink>)
    ensures CategoryIdsOf(r) == ids
  {
    if ids == [] then [] else [CategoryLink(ids[0])] + LinksOf(ids[1..])
  }

  function ResponseImagesOf(imgs: seq<ImageRef>): (r: seq<ResponseImage>)
    ensures ImageRefsOf(r) == imgs
  {
    if imgs == [] then [] else [ResponseImage(0, imgs[0].url, imgs[0].displayOrder, imgs[0].kind)] + ResponseImagesOf(imgs[1..])
  }

  /** The product a server that stores a request body faithfully returns
      for it. */
  function Echo(body: RequestBody): ProductRecord {
    ProductRecord(
      Some(body.product.name), Some(body.product.description), Some(body.product.subName),
      Some(body.product.isVisible), Some(body.details), Some(LinksOf(body.categoryIds)),
      Some(ResponseImagesOf(body.images)))
  }

  /** Saving a product and loading it back fills the form with what was
      entered: name, SKU, description, visibility, price and size text
      (absent texts come back empty), categories and images. */
  lemma ReloadKeepsFields(f: FormData)
    ensures var g := ResetFrom(Echo(Payload(f)));
            && g.product.name == f.product.name
            && g.product.sku == Some(OrEmpty(f.product.sku))
            && g.product.description == Some(OrEmpty(f.product.description))
            && g.product.status == f.product.status
            && g.product.price == f.product.price
            && g.product.bulkPrice == Some(OrEmpty(f.product.bulkPrice))
            && g.categoryIds == Some(f.categoryIds.GetOr([]))
            && g.images == Some(f.images.GetOr([]))
  {
  }

  /** Saving the reloaded form again sends exactly the same request. */
  lemma ResaveSendsSameRequest(f: FormData)
    ensures Payload(ResetFrom(Echo(Payload(f)))) == Payload(f)
  {
    ReloadKeepsFields(f);
  }

  /** A valid form reloads as a valid form. */
  lemma ReloadedFormValid(f: FormData)
    requires ValidForm(f)
    ensures ValidForm(ResetFrom(Echo(Payload(f))))
  {
  }

  // ---------------------------------------------------------------------
  // The category select of the create route

  /** Choosing a category replaces the list with that one id; nothing else
      in the form changes. */
  function CategoryChosen(f: FormData, id: int): (r: FormData)
    ensures r.categoryIds == Some([id])
    ensures r.(categoryIds := f.categoryIds) == f
  {
    f.(categoryIds := Some([id]))
  }

  /** The request for a form with a chosen category names only it. */
  lemma ChosenCategoryIsSent(f: FormData, id: int)
    ensures Payload(CategoryChosen(f, id)).categoryIds == [id]
  {
  }

  // ---------------------------------------------------------------------
  // Submitting

  /** The submit state: the loading flag and how many requests went out. */
  datatype Submission = Submission(loading: bool, sent: nat)

  const Idle := Submission(false, 0)

  /** Pressing submit: nothing happens while the button is disabled
      (loading), nor when the form's validation rejects the values, since
      `handleSubmit` only calls the hook's `onSubmit` for a valid form;
      otherwise the flag is set and a request goes out. */
  function Clicked(s: Submission, f: FormData): (r: Submission)
    ensures s.loading || Issues(f) != [] ==> r == s
    ensures !s.loading && Issues(f) == [] ==> r.loading && r.sent == s.sent + 1
  {
    if s.loading || !ValidForm(f) then s else Submission(true, s.sent + 1)
  }

  /** The request settled, whichever way: `finally` clears the flag. */
  function Settled(s: Submission): (r: Submission)
    ensures !r.loading && r.sent == s.sent
  {
    s.(loading := false)
  }

  /** The form as first shown sends nothing: its empty name and zero price
      are rejected before the hook is reached. */
  lemma DefaultFormSendsNothing(s: Submission)
    ensures Clicked(s, DefaultValues) == s
  {
    DefaultsRejected();
  }

  /** For a valid form, clicking again before the request settles sends
      nothing more, and after it settles the button works again. */
  lemma OneRequestAtATime(s: Submission, f: FormData)
    requires !s.loading && Issues(f) == []
    ensures Clicked(Clicked(s, f), f).sent == s.sent + 1
    ensures Clicked(Settled(Clicked(s, f)), f).sent == s.sent + 2
  {
  }

  const CreateFailedMessage := "Failed to create product. Please try again."
  const UpdateFailedMessage := "Failed to update product. Please try again."

  /** How the create hook's two awaited calls ended. The generated fetch
      client resolves HTTP error statuses instead of throwing, so only a
      network-level failure throws. The product list is fetched first; when
      that throws the POST is never sent. */
  datatype CreateOutcome =
    | ListThrew
    | PostAnswered(status: int)
    | PostThrew

  /** Where the create hook leaves the page: the loading flag, whether the
      POST went out and the alert it shows. */
  datatype CreateResult = CreateResult(loading: bool, posted: bool, alert: Option<string>)

  /** The create hook after its calls: the POST is sent unless the list
      call threw; only a thrown call alerts, with the fixed text, so an
      error status from the server passes silently. */
  function CreateFinished(outcome: CreateOutcome): (r: CreateResult)
    ensures !r.loading
    ensures r.posted <==> !outcome.ListThrew?
    ensures r.alert.Some? <==> !outcome.PostAnswered?
    ensures r.alert.Some? ==> r.alert.value == CreateFailedMessage
  {
    match outcome
    case ListThrew => CreateResult(false, false, Some(CreateFailedMessage))
    case PostAnswered(_) => CreateResult(false, true, None)
    case PostThrew => CreateResult(false, true, Some(CreateFailedMessage))
  }

  /** How the PATCH request ended: a response with its status and the
      message of its error body, or a thrown error with its message. */
  datatype PatchOutcome =
    | Responded(status: int, errorMessage: Option<string>)
    | Threw(message: Option<string>)

  /** Where the update leaves the page: the loading flag, the route it
      navigates to and the alert it shows. */
  datatype UpdateResult = UpdateResult(loading: bool, navigateTo: Option<string>, alert: Option<string>)

  /** A message is used when it is truthy, the fallback otherwise. */
  function MessageOr(m: Option<string>, fallback: string): (r: string)
    ensures TruthyString(m) ==> r == m.value
    ensures !TruthyString(m) ==> r == fallback
  {
    if TruthyString(m) then m.value else fallback
  }

  /** The update's `onSubmit` after the request: a status below 400 goes
      to the product's page; anything else alerts. */
  function UpdateFinished(productId: int, outcome: PatchOutcome): (r: UpdateResult)
    ensures !r.loading
    ensures r.navigateTo.Some? <==> outcome.Responded? && outcome.status < 400
    ensures r.navigateTo.Some? ==> r.navigateTo.value == "/product/" + IdString(productId)
    ensures r.alert.Some? <==> r.navigateTo.None?
    ensures r.alert.Some? ==> r.alert.value != ""
  {
    match outcome
    case Responded(status, e) =>
      if status >= 400 then
        // the thrown error carries `e || fallback`, and the handler shows
        // its message when truthy
        UpdateResult(false, None, Some(MessageOr(Some(MessageOr(e, UpdateFailedMessage)), UpdateFailedMessage)))
      else UpdateResult(false, Some("/product/" + IdString(productId)), None)
    case Threw(m) => UpdateResult(false, None, Some(MessageOr(m, UpdateFailedMessage)))
  }

  /** An error status shows the server's message when it has one and the
      fixed text otherwise, exactly as a thrown error does. */
  lemma ErrorStatusMessage(productId: int, status: int, e: Option<string>)
    requires status >= 400
    ensures UpdateFinished(productId, Responded(status, e))
         == UpdateResult(false, None, Some(MessageOr(e, UpdateFailedMessage)))
    ensures UpdateFinished(productId, Responded(status, e)) == UpdateFinished(productId, Threw(e))
  {
  }

  /** The two hooks disagree on an error status: the update alerts, while
      the create hook shows nothing and leaves the user on the form. */
  lemma ErrorStatusAlertsOnlyOnUpdate(productId: int, status: int, e: Option<string>)
    requires status >= 400
    ensures CreateFinished(PostAnswered(status)).alert.None?
    ensures UpdateFinished(productId, Responded(status, e)).alert.Some?
  {
  }
}
