# Wooilyo admin client — a Dafny model of its list, tree, form and upload logic

This project models the logic of the Wooilyo pottery shop's React admin client
in Dafny. Rendering and REST glue are not modelled. It has four parts.

**Category hierarchy**
- The flat category record and the fixed three-level tree that `buildCategoryTree` makes from it.
- The category page's load, expand/collapse and rebuild rules.
- The rows the category table shows, and the three category dialogs (add, edit, delete).
- The product form's category select: its options, which ones are disabled, the chosen name, and the root-first chain of ids (`findParentCategories`) that it stores in the form.

**Product pages**
- The product list's query parsing, category path, search and category filters, sort, page slice and pagination buttons.
- The product form's validation schema and the request built from the form on create and update.
- The form reset from a fetched product, the loading flag and the update's error rule.
- The size-info field's newline transform.

**Image uploads**
- The two-slot image uploader: a main slot holding one image and a description slot holding five. It covers admission, the display-order counter, upload success and failure, removal, the form's `images` value, and the drag-and-drop handlers.
- The older five-image picker.

**Sign-up**
- The sign-up form's id and password rules and its `redirect` search parameter.

Each screen is a Dafny module holding an immutable state record. Each event handler is a pure function from state and event to the next state. The category table and the select options are sequences computed from the tree.

What the program receives from outside becomes a parameter:
- the server's category list and fetched product;
- the page's category and product catalogue;
- the files a user selects or drops (a file is a number, and a dropped file carries its MIME type);
- the success or failure of each upload, and each request's outcome;
- the drag events.

An `alert` is returned as an `Option<string>` rather than shown.

JavaScript semantics are written out where they matter:
- string truthiness (`""` is falsy);
- id truthiness (`0`, `null` and `undefined` are falsy);
- `Array.prototype.slice` with its index clamping, and `splice` of one element;
- `String.prototype.split` and `join`;
- `parseInt` on what `toString` prints;
- `trim`, and `toLowerCase` on ASCII;
- `includes`;
- string lengths counted in UTF-16 code units, as zod counts them.

Modules, one per file:
- `Common`: `Option`, `Min`/`Max`, `JsSlice`, `RemoveAt`, `Count`.
- `Text`: string helpers, `Split`/`Join`, `IdString`/`ParseInt`.
- `CategoryTypes`, `CategoryTree` (`buildCategoryTree`), `CategoryPage` (the category route), `CategoryRows`, and the three dialogs `AddCategoryModal`, `EditCategoryModal` and `DeleteCategoryModal`.
- `CategorySection`: the product form's category select.
- `ProductList`: the product list route.
- `ProductForm`: the schema, the requests, the reset, and the loading and error rules.
- `SizeInfo`: the size-info field.
- `ImageSlots`: the two-slot uploader.
- `LegacyImages`: the five-image picker.
- `Signup`: the sign-up page.

## Model

| member | source | states |
|---|---|---|
| CategoryTree.Select | src/lib/category.ts:2-4 | The filter keeps exactly the records of the given level and parent, in order, and never grows the list. |
| CategoryTree.BuildCategoryTree | src/lib/category.ts:1-33 | The roots are the level-1 records in list order. A root's children are exactly the level-2 records whose parent is that root, in list order. A level-2 node's children are exactly the level-3 records under it, as leaves. Records are copied into nodes unchanged. |
| CategoryTree.BuildIsLayered | src/lib/category.ts:1-33 | Every node of the built tree is layered. A level-1 node holds a children list of level-2 nodes pointing back to it. Each of those holds a children list of level-3 leaves pointing back to it. Every child is one level below its parent. |
| CategoryTree.BuildKeepsExactlyAnchored | src/lib/category.ts:2-18 | A record is in the flattened tree iff it is in the list and anchored: a level-1 record, a level-2 record whose parent is a level-1 record, or a level-3 record whose parent is such a level-2 record. Orphans and other levels appear nowhere. |
| CategoryTree.BuildNodeCountBound | src/lib/category.ts:2-18 | With unique ids, no record appears twice in the tree, so it has at most as many nodes as the list has records. |
| CategoryTypes.FindById | src/components/product/create/CategorySection.tsx:51-53 | `find` by id returns a record of the list with that id, and nothing exactly when no record has it. |
| CategoryTypes.FindByIdFirst | src/components/product/create/CategorySection.tsx:51-53 | The record found is the first one in the list with that id. |
| CategoryPage.Format | src/routes/category.tsx:38-50 | A loaded record keeps its id, key, name, level and parent, and is collapsed. |
| CategoryPage.ParentCandidates | src/routes/category.tsx:67-69 | The parent candidates are exactly the records below level 3. |
| CategoryPage.ParentCandidatesAppend | src/routes/category.tsx:67-69 | The candidates keep list order: the candidates of two lists joined are each list's candidates joined, and a single record is kept iff it is below level 3. |
| CategoryPage.ToggleExpand | src/routes/category.tsx:57-65 | Only records with the given id flip `expanded`. Every other record and every other field stays as it was. |
| CategoryPage.ToggleTwice | src/routes/category.tsx:57-65 | Toggling the same id twice restores the list. |
| CategoryPage.ToggleUnknown | src/routes/category.tsx:59-63 | Toggling an id no record has changes nothing. |
| CategoryPage.ToggleKeepsTreeShape | src/routes/category.tsx:52-65 | Rebuilding the tree after a toggle gives the old tree's records with that one record flipped. The tree's shape does not change. |
| CategoryPage.SyncTreeAsWritten | src/routes/category.tsx:52-55 | As written, the tree follows a non-empty list, and an empty list leaves the previous tree in place. |
| CategoryPage.SyncTree | src/routes/category.tsx:52-55 | Corrected rebuild: the tree always equals `buildCategoryTree` of the list. |
| CategoryPage.Load | src/routes/category.tsx:38-55 | Data from the server replaces the list with its formatted records. A non-empty list brings the tree in line with it, and an empty list leaves the tree on screen as it was. No data leaves the page as it was, and the dialogs are never touched. |
| CategoryPage.LoadCorrected | src/routes/category.tsx:52-55 | The load with the empty-list guard dropped: the tree always follows the stored list. |
| CategoryPage.LoadAgreesUnlessEmpty | src/routes/category.tsx:52-55 | The page's load and the corrected load agree on every non-empty list. On an empty list they agree iff no tree was on screen. |
| CategoryPage.Toggle | src/routes/category.tsx:52-65 | The expand button toggles the record in the list. The tree follows unless the list is empty, and nothing else changes. |
| CategoryPage.EditClicked | src/routes/category.tsx:104-107 | Edit makes the row's record current and opens the edit dialog. Nothing else changes. |
| CategoryPage.DeleteClicked | src/routes/category.tsx:108-111 | Delete makes the row's record current and opens the delete dialog. Nothing else changes. |
| CategoryPage.LoadShowsRoots | src/routes/category.tsx:38-55 | Unless an empty list arrives while a tree is on screen, after a load the table shows one level-1 line per level-1 record in list order, or the single "no categories" line when there is none. |
| CategoryPage.ToggleKeepsPage | src/routes/category.tsx:57-65 | On a page whose tree matches its list, a toggle flips exactly that record in the tree. |
| CategoryPage.StaleTreeAfterLastDelete | src/routes/category.tsx:52-55 | As written, reloading after the last category is deleted leaves the list empty while the table still shows the deleted category. |
| CategoryPage.EmptyLoadShowsNoCategory | src/routes/category.tsx:52-55 | With the corrected load, an empty list shows the "no categories" line. |
| CategoryRows.ToggleOf | src/components/category/CategoryRow.tsx:73-85 | The expand button is drawn iff the item's `children` is non-empty. It points down iff the item is expanded. |
| CategoryRows.Level3Lines | src/components/category/CategoryRow.tsx:159-170 | An expanded level-2 row draws one level-3 line per child, in the children's order. |
| CategoryRows.CategoryRowLines | src/components/category/CategoryRow.tsx:207-241 | Level 1 is drawn by the level-1 row and level 2 by the level-2 row. Any other level is drawn by the level-3 row, which draws one line and nothing below it. |
| CategoryRows.TableRows | src/routes/category.tsx:97-113 | An empty tree shows exactly the "no categories" line, and a non-empty tree never does. |
| CategoryRows.RowsAreVisibleLines | src/components/category/CategoryRow.tsx:105-169 | For a built tree, the rows are the pre-order traversal pruned below collapsed items. Each row is drawn by its level's component, with a button iff the item has children. |
| CategoryRows.CollapsedShowsTopLevel | src/components/category/CategoryRow.tsx:105-115 | With nothing expanded, only the top-level items are visible. |
| CategoryRows.CollapsedTable | src/routes/category.tsx:97-113 | With every record collapsed, the table shows one level-1 line per level-1 record in list order, or "no categories" when there is none. |
| CategorySection.RenderOptions | src/components/product/create/CategorySection.tsx:78-99 | There is one option per node in pre-order. Its value is the id's decimal string and its caption is the level's indentation followed by the name. It is disabled iff the node has a non-empty `children`. |
| CategorySection.OptionsFollowFlatten | src/components/product/create/CategorySection.tsx:78-99 | The options list the records of the flattened tree, in the same order. |
| CategorySection.BuiltOptionDisabledIff | src/components/product/create/CategorySection.tsx:83-89 | In a built tree, an option is disabled iff its record is below level 3 and some record names it as parent one level down. |
| CategorySection.FindByIdString | src/components/product/create/CategorySection.tsx:40-43 | Lookup by the id's string finds a record printing as that string, and nothing iff no record does. |
| CategorySection.SelectedName | src/components/product/create/CategorySection.tsx:37-46 | An empty or unknown id shows "". Any other name shown belongs to a record with that id. |
| CategorySection.SelectedNameShowsChosen | src/components/product/create/CategorySection.tsx:37-46 | For an id's string, the name shown is that of the first record with the id, or "" when there is none. |
| CategorySection.Ancestors | src/components/product/create/CategorySection.tsx:61-70 | A record with a falsy or dangling parent has no ancestors. Otherwise the last id found is the record's parent id, and the walk returns no more ids than its step bound. |
| CategorySection.AncestorsChain | src/components/product/create/CategorySection.tsx:61-70 | The ancestors found, followed by the record itself, form a valid chain. Each element after the first names a record whose parent is the element before it. The walk stops at a falsy or dangling parent. |
| CategorySection.FindParentIn | src/components/product/create/CategorySection.tsx:48-75 | An id that is not in the list gives `[]`. Otherwise a chain that is found ends with the selected id. |
| CategorySection.FindParentInChain | src/components/product/create/CategorySection.tsx:48-75 | Every non-empty result is a valid chain. |
| CategorySection.FindParentCategories | src/components/product/create/CategorySection.tsx:48-75 | On the received tree, an id with no record gives `[]`, and any non-empty result is a root-first chain of parent links ending with the selected id. |
| CategorySection.OnValueChange | src/components/product/create/CategorySection.tsx:110-117 | The select keeps the chosen value, and a value that is not a number stores `[]`. |
| CategorySection.BuiltChain | src/components/product/create/CategorySection.tsx:48-75 | For every node of a built tree from a list with unique ids, the chain exists. It is as long as the node's level, runs from a level-1 record down, and ends with the node's id. |
| CategorySection.ChooseOption | src/components/product/create/CategorySection.tsx:110-123 | Choosing a record's option stores its chain and shows its name. |
| CategorySection.ChooseBuiltOption | src/components/product/create/CategorySection.tsx:107-123 | In a built tree, choosing any node's option shows its name. It stores a chain as long as its level that ends with its id. |
| AddCategoryModal.ParentChosen | src/components/category/AddCategoryModal.tsx:105-109 | The "none" item clears the parent. Any other value becomes the parent. The name and open flag are kept. |
| AddCategoryModal.NameTyped | src/components/category/AddCategoryModal.tsx:94-98 | Typing replaces the draft's name and leaves the open flag and the parent alone. |
| AddCategoryModal.SubmitSeesLastName | src/components/category/AddCategoryModal.tsx:50-64 | After two edits of the name, the request carries the last text typed, untrimmed, at the level of the chosen parent. |
| AddCategoryModal.Opened | src/components/category/AddCategoryModal.tsx:80-84 | The trigger opens the dialog and keeps the draft. |
| AddCategoryModal.NewLevel | src/components/category/AddCategoryModal.tsx:52-56 | No parent gives level 1. A parent found with level 1 gives level 2. Every other parent gives level 3, including one not found. |
| AddCategoryModal.Submit | src/components/category/AddCategoryModal.tsx:50-64 | There is no request iff the trimmed name is empty. Otherwise the key and name are the untrimmed input and the level is the derived one. The parent is omitted when none is chosen, and is otherwise `parseInt` of the chosen value. |
| AddCategoryModal.BlankNameSendsNothing | src/components/category/AddCategoryModal.tsx:51 | Nothing is sent iff every character of the name is white space. |
| AddCategoryModal.ChosenParentDecidesPlacement | src/components/category/AddCategoryModal.tsx:50-64 | Choosing a level-1 or level-2 candidate sends its id as parent and its level plus one. Choosing "none" sends a level-1 category with no parent. |
| AddCategoryModal.Succeeded | src/components/category/AddCategoryModal.tsx:44-47 | Success resets the name and parent and closes the dialog. |
| AddCategoryModal.Dismissed | src/components/category/AddCategoryModal.tsx:75-78 | The dialog's own close resets the name and parent. |
| AddCategoryModal.Cancelled | src/components/category/AddCategoryModal.tsx:140-142 | The cancel button only closes. The draft is kept. |
| AddCategoryModal.CancelKeepsDraft | src/components/category/AddCategoryModal.tsx:66-78 | Reopening after cancel shows the old draft, and reopening after a dismissal shows an empty one. |
| EditCategoryModal.Seed | src/components/category/EditCategoryModal.tsx:48-53 | A category seeds the name from itself, and the parent with its parent id's `toString()`, or none when it has none. No category leaves the dialog alone. |
| EditCategoryModal.Submit | src/components/category/EditCategoryModal.tsx:55-62 | There is no request iff there is no category or the trimmed name is empty. Otherwise the request carries the category's id and the untrimmed name. The parent is omitted when the value is falsy, and is otherwise `parseInt` of the value. |
| EditCategoryModal.ParentChosen | src/components/category/EditCategoryModal.tsx:87-89 | Choosing in the select stores the value as the parent and keeps the name and open flag. |
| EditCategoryModal.ChosenCandidateIsSent | src/components/category/EditCategoryModal.tsx:55-62 | Choosing any offered candidate and saving sends the record's id, the name in the input and the candidate's id as parent. The candidate is never the record itself. |
| EditCategoryModal.SeedThenSubmit | src/components/category/EditCategoryModal.tsx:48-62 | Saving a freshly seeded dialog sends the category's own id, name and parent. |
| EditCategoryModal.ParentOptionsAppend | src/components/category/EditCategoryModal.tsx:95-100 | The candidates keep list order: filtering two lists joined is filtering each and joining, and a single record is kept iff it passes the level and self test. |
| EditCategoryModal.ParentOptions | src/components/category/EditCategoryModal.tsx:95-100 | The candidates are exactly the records below the category's level, or below level 3 when it has none, other than the category itself. |
| EditCategoryModal.OptionsForLevel | src/components/category/EditCategoryModal.tsx:95-100 | A level-2 category is offered the level-1 records. A level-3 category is offered every candidate other than itself, level-1 records included. |
| EditCategoryModal.Succeeded | src/components/category/EditCategoryModal.tsx:42-45 | A successful edit closes the dialog. |
| DeleteCategoryModal.Confirm | src/components/category/DeleteCategoryModal.tsx:33-37 | With no category, nothing is sent and the dialog stays as it is. Otherwise deletion of exactly that id is requested and the dialog closes at once. |
| DeleteCategoryModal.ShowsWarning | src/components/category/DeleteCategoryModal.tsx:49-54 | The sub-category warning shows iff the category is not at level 3. |
| DeleteCategoryModal.Succeeded | src/components/category/DeleteCategoryModal.tsx:27-30 | A successful delete closes the dialog, whatever it shows by then. |
| DeleteCategoryModal.SentOnlyOpened | src/components/category/DeleteCategoryModal.tsx:27-37 | Over any sequence of opening, confirming and late successes, every delete request names a record the dialog was opened for. |
| DeleteCategoryModal.LateSuccessClosesReopened | src/components/category/DeleteCategoryModal.tsx:27-37 | Confirming one record, reopening the dialog for another and then receiving the first success closes the dialog on the second record, which is not deleted. |
| Text.Trim | src/components/category/AddCategoryModal.tsx:51 | The trimmed name is a slice of the input with only white space before and after it, and it neither starts nor ends with white space. |
| Text.TrimStart | src/components/category/AddCategoryModal.tsx:51 | Only leading white space is removed, and the result does not start with white space. |
| Text.BlankIffAllSpace | src/components/category/EditCategoryModal.tsx:56 | A string trims to "" iff all its characters are white space. |
| Text.ToLower | src/routes/index.tsx:293 | Lower-casing keeps the length and maps each character. |
| Text.Includes | src/routes/index.tsx:293 | `includes` holds iff the needle occurs at some position. |
| Text.Split | src/routes/index.tsx:54 | Splitting gives one more piece than there are separators, and no piece holds the separator. |
| Text.Join | src/routes/index.tsx:54 | The comma-separated form the split reads starts with the first piece, and separator-free pieces are joined by exactly one separator fewer than there are pieces. |
| Text.JoinSplit | src/routes/index.tsx:54 | Joining the pieces of a split with the separator gives back the string. |
| Text.SplitJoin | src/routes/index.tsx:54 | Splitting a join of separator-free pieces gives back the pieces. |
| Text.IdStringInjective | src/components/product/create/CategorySection.tsx:42 | Different ids print differently, so string comparison of ids is id comparison. |
| Text.ParseInt | src/components/category/AddCategoryModal.tsx:60 | Blank input is NaN. A negative result needs a leading minus after the white space, a leading digit always parses to a non-negative number, and any other leading character except a sign is NaN. |
| Text.ParseIntIdString | src/components/category/AddCategoryModal.tsx:60 | `parseInt` of an id's `toString` is the id, negative ids included. |
| ProductList.ParseSortBy | src/routes/index.tsx:64-67 | Exactly the four names parse, each to its order. |
| ProductList.ParseQuery | src/routes/index.tsx:49-68 | An unknown `sortBy` fails the parse. `categoryIds` is absent iff its parameter is falsy, and otherwise it is `parseInt` of each comma-separated piece. `page` and `limit` default to 1 and 15 when falsy. `sortBy` defaults to newest. |
| ProductList.EmptyQueryDefaults | src/routes/index.tsx:49-68 | The empty query parses to no categories, page 1, limit 15 and newest. |
| ProductList.IdListRoundTrip | src/routes/index.tsx:53-55 | A non-empty id list written as comma-joined decimals parses back to the same ids. |
| ProductList.ParseQueryOf | src/routes/index.tsx:49-68 | A query written from ids, page, limit and order parses back to them. |
| ProductList.Lookup | src/routes/index.tsx:145 | `find` by id returns a record with that id, and nothing iff there is none. |
| ProductList.GetCategoryPath | src/routes/index.tsx:140-169 | An unknown id gives the empty path. `level3` is set iff the record is at level 3, and then it is the record's name. |
| ProductList.PathFollowsParents | src/routes/index.tsx:140-169 | When every parent resolves one level up, the path names the grandparent, parent and record, one per level down to the record's own level. |
| ProductList.SearchIgnoresCase | src/routes/index.tsx:291-293 | A search and its lower-case form match the same products. |
| ProductList.AnyHit | src/routes/index.tsx:297-305 | A product matches iff one of its category ids is in the filter or has its parent in it. |
| ProductList.FilterProducts | src/routes/index.tsx:290-308 | The kept products are exactly those that match the search and the category filter, in order and with their multiplicities. |
| ProductList.FilterProductsAppend | src/routes/index.tsx:290-308 | The filter keeps list order: filtering two lists joined is filtering each and joining, and a single product is kept iff it passes both filters. |
| ProductList.FilterIsOneLevel | src/routes/index.tsx:295-305 | Filtering by a category's parent finds its products. Filtering by its grandparent does not. |
| ProductList.SortProducts | src/routes/index.tsx:311-326 | The sorted list is a permutation of the input, ordered by the chosen key. |
| ProductList.SortedPairwise | src/routes/index.tsx:311-326 | In the sorted list, every earlier product comes no later than every later one. |
| ProductList.PageCount | src/routes/index.tsx:526 | The page count is the ceiling of total over page size: it is 0 iff the total is 0. |
| ProductList.PageInRange | src/routes/index.tsx:329-333 | A page in range is the non-empty slice starting at `(current-1)*pageSize` and holding at most `pageSize` products. |
| ProductList.PagesCoverList | src/routes/index.tsx:329-333 | The pages one after another are the whole list. |
| ProductList.NextTarget | src/routes/index.tsx:569-576 | Corrected next target: it is at least 1, one more than the current page inside the range, and the last page at or after it. |
| ProductList.PrevClicked | src/routes/index.tsx:510-519 | Previous does nothing on page 1. From a later page it moves back one, and it never goes below page 1. Only the page changes. |
| ProductList.NextClickedAsWritten | src/routes/index.tsx:567-583 | As written, next does nothing on the last page and moves on one before it. Past the last page it jumps back to the page count, which is 0 for an empty list. Only the page changes. |
| ProductList.NextClicked | src/routes/index.tsx:567-583 | With the lower bound, next never leaves page 1 or above, does nothing on the last page and moves on one before it. Only the page changes. |
| ProductList.PrevStaysInRange | src/routes/index.tsx:510-519 | From a page in range, previous stays in range and moves back by one unless it is on page 1. |
| ProductList.NextStaysInRange | src/routes/index.tsx:567-583 | From a page in range, next stays in range, moves on by one unless it is on the last page, and agrees with the code as written. |
| ProductList.PageLinks | src/routes/index.tsx:522-565 | The links are increasing and lie in [1, pages], with at most six of them. They are the first min(5, pages) pages, plus the last page when there are more than five. |
| ProductList.MiddlePagesHaveNoActiveLink | src/routes/index.tsx:529-565 | A page beyond the fifth that is not the last has no link of its own. |
| ProductList.InitialState | src/routes/index.tsx:272-283 | The page starts at page 1 with no search, no category filter and newest first. |
| ProductList.Refresh | src/routes/index.tsx:286-341 | After the effect, the products shown are page `current` of the filtered, sorted list, and the total is the filtered count. At most ten products are shown, each a catalogue product that passes the filters. The filters and page are unchanged. |
| ProductList.Search | src/routes/index.tsx:343-346 | A new search sets the text and goes back to page 1. |
| ProductList.PageChosen | src/routes/index.tsx:348-350 | Choosing a page changes only the current page. |
| ProductList.SearchShowsFirstPage | src/routes/index.tsx:286-346 | After a search, the first page of the sorted matches is shown, and the total counts every match. |
| ProductList.NextPastEmptyList | src/routes/index.tsx:567-583 | As written, for any catalogue and any search that matches none of its products, next moves to page 0. |
| ProductList.NextStaysOnAPage | src/routes/index.tsx:567-583 | With the lower bound, next stays on page 1 when nothing is listed, and stays in range from a page in range. |
| ProductList.PriceRange | src/routes/index.tsx:437-440 | The price column shows the first option's price and the highest price. |
| ProductList.PriceRangeOrdered | src/routes/index.tsx:437-440 | The shown range never runs backwards. |
| ProductForm.ProductIssues | src/components/product/create/types.ts:4-14 | A product issue is reported iff its rule is broken. None is reported iff the name is non-empty, the price is positive, the stock is non-negative, and cost and tax rate are absent or non-negative. |
| ProductForm.DetailIssues | src/components/product/create/types.ts:16-23 | Detail issues are reported iff there are more than three rows or a row's price is not positive. |
| ProductForm.Issues | src/components/product/create/types.ts:21-28 | The form is reported for exactly the broken rules, and it is valid iff nothing is reported. That includes more than five images. |
| ProductForm.DefaultsRejected | src/components/product/create/useCreateProduct.ts:12-29 | The default values fail exactly on the empty name and the zero price. |
| ProductForm.Payload | src/components/product/create/useCreateProduct.ts:34-50 | The request carries the name. The SKU, or "", is both the sub-name and the short description. It also carries the description or "", visibility from status, one detail row with the size text or "" and the price, and the category ids and images or `[]`. |
| ProductForm.PayloadIgnoresUnsentFields | src/components/product/create/useUpdateProduct.ts:77-93 | The form's own detail rows, stock, cost, tax rate, brand and tags do not affect the request. |
| ProductForm.ResetFrom | src/components/product/create/useUpdateProduct.ts:44-73 | The reset sets name, description and SKU from the record with "" defaults, and status from visibility (true only when absent). Price and size text come from the first detail (0 and "" without one). Stock, cost and tax rate are 0. Category ids and images are projected in order. |
| ProductForm.OnProductData | src/components/product/create/useUpdateProduct.ts:44-73 | A fetched product resets the form, and no data leaves it alone. |
| ProductForm.ReloadKeepsFields | src/components/product/create/useUpdateProduct.ts:44-93 | Saving a form and loading the stored product back recovers the name, SKU, description, status, price, size text, categories and images. |
| ProductForm.ResaveSendsSameRequest | src/components/product/create/useUpdateProduct.ts:44-93 | Saving the reloaded form sends exactly the first request again. |
| ProductForm.ReloadedFormValid | src/components/product/create/useUpdateProduct.ts:44-93 | A valid form reloads as a valid form. |
| ProductForm.CategoryChosen | src/routes/product.create.tsx:398-399 | Choosing a category sets the ids to that one id and changes nothing else. |
| ProductForm.ChosenCategoryIsSent | src/routes/product.create.tsx:398-399 | The request then names only that category. |
| ProductForm.Clicked | src/routes/product/create.tsx:63-86 | While loading, the submit button is disabled and does nothing, and a form that fails validation never reaches the hook. Otherwise the hook sets the flag and sends one request. |
| ProductForm.DefaultFormSendsNothing | src/components/product/create/useCreateProduct.ts:10-29 | Submitting the form as first shown sends nothing, because validation rejects its defaults. |
| ProductForm.Settled | src/components/product/create/useCreateProduct.ts:58-60 | `finally` clears the flag, whatever the outcome. |
| ProductForm.OneRequestAtATime | src/components/product/create/useCreateProduct.ts:32-61 | For a valid form, a second click before the request settles sends nothing, and after it settles the button works again. |
| ProductForm.CreateFinished | src/components/product/create/useCreateProduct.ts:52-60 | The POST is sent unless the list call threw. Only a thrown call alerts, with the fixed text, so an error status is silent. The flag is cleared either way. |
| ProductForm.ErrorStatusAlertsOnlyOnUpdate | src/components/product/create/useCreateProduct.ts:52-60 | An error status shows no alert after a create, while the update shows one for the same status. |
| ProductForm.MessageOr | src/components/product/create/useUpdateProduct.ts:115-119 | A truthy message is used, and otherwise the fallback. |
| ProductForm.UpdateFinished | src/components/product/create/useUpdateProduct.ts:95-124 | The flag is cleared. A response below 400 navigates to the product's page. Every other outcome alerts with a non-empty message and does not navigate. |
| ProductForm.ErrorStatusMessage | src/components/product/create/useUpdateProduct.ts:102-121 | An error status alerts with the server's message, or the fixed text when there is none, exactly as a thrown error does. |
| SizeInfo.HardBreaks | src/components/product/create/PricingSection.tsx:80 | The output is longer by two per newline and keeps the newline count. Every newline follows two spaces. |
| SizeInfo.UnbreakHardBreaks | src/components/product/create/PricingSection.tsx:80 | Removing the two spaces before each newline gives back the input, so other characters are kept in order. |
| SizeInfo.AsWrittenAddsSpaces | src/components/product/create/PricingSection.tsx:78-82 | As written, a newline typed before another key ends up with four spaces in front of it. |
| SizeInfo.SpacesPileUp | src/routes/product.create.tsx:286-292 | The route's copy of the handler piles up spaces the same way, and the corrected handler does not. |
| SizeInfo.OnChangeAsWritten | src/components/product/create/PricingSection.tsx:78-82 | As written, removing the hard breaks from the result gives back the whole value, including the spaces of breaks stored earlier, so they are kept as text. |
| SizeInfo.OnChange | src/components/product/create/PricingSection.tsx:78-82 | The corrected handler keeps the text once the hard breaks are removed. |
| SizeInfo.OnChangeIdempotent | src/components/product/create/PricingSection.tsx:78-82 | Applying the corrected handler again changes nothing. |
| SizeInfo.CorrectedKeepsTwoSpaces | src/components/product/create/PricingSection.tsx:78-82 | With the corrected handler, the same typing keeps exactly two spaces. |
| SizeInfo.OnChangeAgreesOnFreshText | src/components/product/create/PricingSection.tsx:80 | On text with no hard breaks yet, the corrected handler does what the code does. |
| ImageSlots.NewEntries | src/components/product/create/imageUpload/ImageUploadSection.tsx:129-136 | The admitted files become uploading entries of the slot's kind, in order, numbered from the counter. |
| ImageSlots.Process | src/components/product/create/imageUpload/ImageUploadSection.tsx:107-144 | A missing file list or an alert leaves the state alone. A non-empty main slot alerts. Otherwise a prefix of the files is appended as new entries, the counter grows by their number, and the other slot and the form value are untouched. |
| ImageSlots.ProcessAdmits | src/components/product/create/imageUpload/ImageUploadSection.tsx:115-127 | A slot within its cap alerts iff it is the main slot and already holds an image. Otherwise the first min(files, cap - held) files are admitted. |
| ImageSlots.ProcessKeepsInv | src/components/product/create/imageUpload/ImageUploadSection.tsx:107-139 | A selection keeps both slots within their caps (1 and 5) and every entry in its own slot's kind. |
| ImageSlots.FullDescriptionIsSilent | src/components/product/create/imageUpload/ImageUploadSection.tsx:121-127 | A full description slot takes nothing and shows no alert. |
| ImageSlots.DescriptionAdmitsAll | src/components/product/create/imageUpload/ImageUploadSection.tsx:121-139 | Files that fit are all admitted, without an alert. |
| ImageSlots.MarkUploaded | src/components/product/create/imageUpload/ImageUploadSection.tsx:149-153 | Success sets the URL and clears the uploading flag on the entries for that file, and only on them. |
| ImageSlots.MarkFailed | src/components/product/create/imageUpload/ImageUploadSection.tsx:91-103 | Failure sets the error text and clears the uploading flag on the entries for that file, and only on them. |
| ImageSlots.UploadSucceeded | src/components/product/create/imageUpload/ImageUploadSection.tsx:146-158 | Success marks that file's entries in the slot that started the upload. The other slot, the counter, the form value and the drag state are unchanged. |
| ImageSlots.UploadFailed | src/components/product/create/imageUpload/ImageUploadSection.tsx:91-103 | Failure is applied to both slots. |
| ImageSlots.ResultsKeepInv | src/components/product/create/imageUpload/ImageUploadSection.tsx:91-153 | Upload results keep both slots within their caps. |
| ImageSlots.FinishedOnly | src/components/product/create/imageUpload/ImageUploadSection.tsx:170-171 | The filter keeps exactly the entries with a URL that are no longer uploading, with their multiplicities. |
| ImageSlots.SortByOrderStable | src/components/product/create/imageUpload/ImageUploadSection.tsx:172 | The sort is stable: for every display order, the entries carrying it appear in the same relative order as in the input. |
| ImageSlots.ProjectSort | src/components/product/create/imageUpload/ImageUploadSection.tsx:172-177 | Sorting does not change which images the entries project to, nor how often. |
| ImageSlots.SortByOrder | src/components/product/create/imageUpload/ImageUploadSection.tsx:172 | The sort is a permutation ordered by display order. |
| ImageSlots.SuccessfulImages | src/components/product/create/imageUpload/ImageUploadSection.tsx:164-183 | The form's images are in display order. They are the projections of the finished entries of both slots, each as often as it occurs. |
| ImageSlots.SuccessfulImagesAreFinished | src/components/product/create/imageUpload/ImageUploadSection.tsx:166-177 | Each form image is the projection of a finished entry of either slot, and every finished entry is projected. |
| ImageSlots.Settle | src/components/product/create/imageUpload/ImageUploadSection.tsx:160-180 | After the uploads settle, the form's images are the successful images of the current slots, and nothing else changes. |
| ImageSlots.FormHoldsFinishedUploads | src/components/product/create/imageUpload/ImageUploadSection.tsx:160-183 | After settling, every finished upload of either slot is in the form value. |
| ImageSlots.Remove | src/components/product/create/imageUpload/ImageUploadSection.tsx:270-311 | Removal deletes exactly that index from its slot and leaves the other slot alone. It lowers the counter by one and recomputes the form value from both slots. |
| ImageSlots.RemoveKeepsInv | src/components/product/create/imageUpload/ImageUploadSection.tsx:270-278 | Removal keeps both slots within their caps. |
| ImageSlots.DisplayOrderReused | src/components/product/create/imageUpload/ImageUploadSection.tsx:129-139 | Removing an entry other than the last, then adding a file, gives the new entry the same display order as the last existing one. |
| ImageSlots.ImageFiles | src/components/product/create/imageUpload/ImageUploadSection.tsx:247-249 | The drop filter keeps exactly the files whose type starts with "image/". |
| ImageSlots.Drop | src/components/product/create/imageUpload/ImageUploadSection.tsx:236-263 | A drop clears the drag state. An empty drop does nothing else. A drop with no image alerts and processes nothing. Only image files are ever processed. |
| ImageSlots.DragEnter | src/components/product/create/imageUpload/ImageUploadSection.tsx:206-215 | Enter counts up and highlights when something is dragged. |
| ImageSlots.DragLeaveAsWritten | src/components/product/create/imageUpload/ImageUploadSection.tsx:217-228 | As written, a leave counts down and never turns the highlight on. When the new count is 0 the highlight is left as it was, and nothing else changes. |
| ImageSlots.DragLeave | src/components/product/create/imageUpload/ImageUploadSection.tsx:217-228 | Corrected leave: it counts down and clears the highlight when the new count is 0. |
| ImageSlots.HighlightStuckAfterLeave | src/components/product/create/imageUpload/ImageUploadSection.tsx:217-228 | As written, entering and then leaving leaves the count at 0 with the highlight still on. Only a second leave clears it. |
| ImageSlots.BalancedDragClears | src/components/product/create/imageUpload/ImageUploadSection.tsx:206-228 | With the corrected leave, any number of enters followed by as many leaves clears the highlight and the count. |
| LegacyImages.Select | src/components/product/create/ImageUploadSection.tsx:24-43 | A missing list changes nothing, and an alert changes nothing. A list of at most five gets no alert and stays at most five. The first min(chosen, 5 - held) files are appended to both the list and the form value. |
| LegacyImages.Remove | src/components/product/create/ImageUploadSection.tsx:45-52 | Removal deletes exactly that index, and the form value becomes the resulting list. |
| LegacyImages.StepsKeepSync | src/routes/product.create.tsx:120-146 | Selecting and removing keep the list at most five and the form value equal to it. |
| LegacyImages.ShowsDropzone | src/components/product/create/ImageUploadSection.tsx:64 | The drop area shows iff the list is empty. |
| LegacyImages.ShowsAddMore | src/components/product/create/ImageUploadSection.tsx:105 | The add-more tile shows iff fewer than five files are chosen. |
| LegacyImages.FullListOffersNoPicker | src/components/product/create/ImageUploadSection.tsx:64-120 | A full list shows no control that selects files, and no selection changes it. |
| Signup.Utf16Length | src/routes/signup.tsx:21-24 | A JavaScript length is between one and two units per character, and one per character on the Basic Multilingual Plane. |
| Signup.CountUtf16 | src/routes/signup.tsx:21-24 | The loop counts the UTF-16 length. |
| Signup.MatchesIdPattern | src/routes/signup.tsx:23 | The id matches iff it is non-empty and every character is an ASCII letter, a digit or `_`. |
| Signup.Validate | src/routes/signup.tsx:18-25 | No issue is reported iff the id is 3 to 31 units long and matches the pattern, and the password is 3 to 255 units long. Each issue is reported iff its rule fails. |
| Signup.ValidIdIsShortAscii | src/routes/signup.tsx:19-23 | A valid id has between 3 and 31 characters. |
| Signup.EmptyFormRejected | src/routes/signup.tsx:18-25 | The empty form fails the id length, the id pattern and the password length. |
| Signup.RedirectOf | src/routes/signup.tsx:15-17 | A string `redirect` is kept. Anything else, including nothing, becomes "/". |
| Signup.RedirectStable | src/routes/signup.tsx:15-17 | Validating the result again keeps it. |

## Left out

- REST calls, the generated client and query-cache invalidation are not modelled. A request's success or failure, the fetched product and the category list are inputs.
- Concurrency is not modelled. Uploads are sequential completion events, and `Promise.allSettled`, React batching and the `setTimeout` re-sync of the parent's `productImages` list are left out. That file list only feeds rendering.
- Rendering, layout, the tooltips and the debug `console` calls are left out. The level-3 indentation is JSX with non-breaking spaces, and here it is a plain string.
- `File`, `Blob`, `DataTransfer` and `URL.createObjectURL` are not modelled. A file is a number, and a dropped file carries its MIME type.
- `alert` is not shown. Its text is returned.
- The mock product generator in src/routes/index.tsx uses `Math.random`, floating-point prices and `Date.now`, so it is left out. The catalogue and the category table are parameters.
- `createdAt` is a number of milliseconds, so ISO date parsing is left out.
- Numbers are integers. Zod's `coerce.number`, fractional prices and `NaN` are left out. `Text.ParseInt` reads optional leading white space, a sign and decimal digits, and an unparsable string is `None` (NaN). Hexadecimal prefixes and other `parseInt` corners are left out.
- ProductList.SortProducts: `localeCompare` is replaced by code-unit order. The contract states order and permutation but not the stability of `Array.prototype.sort`.
- `Text.ToLower` lower-cases ASCII letters only, because full Unicode case mapping is out of scope.
- The list's query schema (`categoryIds`, `page`, `limit`, `sortBy`) is defined in the source but never attached to the route. It is modelled as a parser of its own, and the page's state is modelled separately.
- CategorySection.Ancestors: its contract states the stopping case, the step bound and the last id. The chain property is stated by `CategorySection.AncestorsChain`. The walk has fuel equal to the list length, and running out of fuel stands for the source's unbounded recursion on a cyclic parent chain.
- `flattenCategories` is not among the source files, so its body is not part of this model. It is taken to be the pre-order traversal that `renderCategoryTree` also follows.
- The select's `value` is the raw string. The stored chain is what `parseInt` of it gives.
- The product create route's own `onSubmit` in src/routes/product.create.tsx is a simulation, so it is left out: it logs, waits one second and alerts "Product created successfully!". The loading flag and the request are modelled on the create hook that src/routes/product/create.tsx uses.
- The remaining files are rendering or glue and are not part of this model. That includes the image cards, the dropzone UI, the basic-info and status sections, the product detail and edit routes, and the table wrapper.
- Two behaviours follow the source where a plainer reading of the screens would expect otherwise. First, `buildCategoryTree` gives every level-1 and level-2 node a `children` array, empty when there are no children, not an absent field. Second, only the add dialog's own close resets its draft: its cancel button and the edit dialog close without resetting.

## Findings

| source | as written | input that shows it | evidently intended | confidence | as-written member | corrected member |
|---|---|---|---|---|---|---|
| src/routes/category.tsx:52-55 | The tree is rebuilt only when the category list is non-empty. | Load one category, delete it, and reload an empty list. | The table shows "no categories" once the list is empty. | medium, not executed | CategoryPage.StaleTreeAfterLastDelete | CategoryPage.EmptyLoadShowsNoCategory |
| src/routes/index.tsx:567-583 | Next goes to `min(ceil(total / pageSize), current + 1)`, which is 0 when nothing is listed, and the button is live because 1 differs from 0. | Search for a name no product has, then click next. | Next stays on page 1. | high, not executed | ProductList.NextPastEmptyList | ProductList.NextStaysOnAPage |
| src/components/product/create/PricingSection.tsx:78-82 | Every change event replaces each newline of the whole field with two spaces and a newline, including newlines converted before. | Type a newline, then "a": the field becomes four spaces, a newline and "a". | Each line break carries exactly two spaces. | high, not executed | SizeInfo.AsWrittenAddsSpaces | SizeInfo.OnChangeIdempotent |
| src/components/product/create/imageUpload/ImageUploadSection.tsx:217-228 | Drag-leave compares the counter value from before its own decrement with 0. | Drag a file over the drop area and away again without dropping. | The highlight clears when the counter returns to 0. | high, not executed | ImageSlots.HighlightStuckAfterLeave | ImageSlots.BalancedDragClears |
