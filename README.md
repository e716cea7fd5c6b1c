# Product categories page, modelled in Dafny

The page lists products from three in-memory tables: products, categories
and users. A product points to its category through `categoryId`, and a
category points to the user who owns it through `ownerId`. Three filters
narrow the list:

- by the owning user;
- by the exact category title;
- by a case-insensitive substring of the product name.

A table then shows the remaining products. The table can be sorted on one of
four columns (ID, Product, Category, User). Each column header has a click
counter: `counter % 3` is 0 for input order, 1 for ascending and 2 for
descending. Clicking a header adds one to its counter and sets the other
three counters to 0.

The model has seven modules:

- `Seqs` (seqs.dfy). `Select(s, keep)` is the reference filter: the elements
  of `s` that belong to the set `keep`, in order. The module also holds the
  laws of `Select` (it is a subsequence, selections compose by intersection,
  it is idempotent and commutative) and `Reverse`.
- `Strings` (strings.dfy). `toLowerCase` covers ASCII letters only.
  `includes` is `Contains`, specified by an occurrence offset.
  `localeCompare` is any *collation*: an integer-valued comparison whose sign
  is antisymmetric and whose "not after" is transitive. `CodePointCompare` is
  one concrete collation.
- `Catalog` (catalog.dfy). The entities, and the `find` lookups with their
  first-match semantics.
- `StableSort` (stable_sort.dfy). An insertion sort driven by a JavaScript
  comparator. On a universe where the comparator is lawful, the module
  proves:
  - the output is ordered and is a permutation of the input;
  - tied rows keep their input order;
  - an all-ties comparator leaves the input unchanged;
  - without ties, sorting with the negated comparator gives the reverse.
- `Table` (table.dfy). The `sortColumn` comparator and its per-column keys.
  The click-counter state machine. The `% 3` icon mapping. The effect's
  choice of the active column. The `TableView` class holds the component
  state `sortedProducts`, which the effect and the click handlers overwrite.
- `App` (app.dfy). The three filters, each proved equal to `Select` with its
  own criterion. The `AppState` class holds the page's state cells. Its
  `Filter` method reassigns `products` step by step, and it also has the
  reset-all handler.
- `Scenarios` (scenarios.dfy). Worked examples on a Milk/Bread catalogue.
  Another example shows that the Category column compares titles with their
  letter case.

The lookups in the source crash on a dangling reference. The model makes
them preconditions instead: `Resolves`, `Comparable` and `Consistent` say
that every category and owner looked up exists.

The Category column passes the category titles to `localeCompare` exactly
as stored (`src/components/Table.jsx:36-44`). The Product and User columns
lower-case both keys first (`src/components/Table.jsx:16` and `69`). The
model keeps that difference: the Category key is the raw title. What the
difference changes depends on the collation. Under code-point order
(`CodePointCompare`), capitals sort before small letters, so "Bananas" sorts
before "apples" while the lower-cased titles come the other way round;
`Scenarios.CategorySortIsCaseSensitive` and `Scenarios.LowerCasedTitlesOrder`
show this. Browser locale collations usually rank letter case below the
letters themselves, so there "apples" sorts before "Bananas" as well, and
raw and lower-cased titles order differently only for titles that are equal
up to letter case.

## Model

| member | source | states |
|---|---|---|
| `Catalog.FindCategory` | src/components/Table.jsx:6-8 | Finds nothing iff no category has the id; otherwise the result has that id and is a row of the table. The copy at src/App.jsx:10-12 is the same. |
| `Catalog.FindCategoryFirst` | src/components/Table.jsx:6-8 | When several categories share an id, `find` returns the first of them. |
| `Catalog.FindUser` | src/components/Table.jsx:10-12 | The same for users. The copy at src/App.jsx:14-16 is the same. |
| `Catalog.FindUserFirst` | src/components/Table.jsx:10-12 | When several users share an id, `find` returns the first of them. |
| `Catalog.OwnerOf` | src/App.jsx:20-21 | The user found for a product's category has the category's `ownerId` and is in the users table. |
| `Catalog.CategoryOf` | src/components/Table.jsx:36-37 | The category found for a product has the product's `categoryId` and is in the categories table (also src/App.jsx:20 and 35). |
| `Strings.Lower` | src/components/Table.jsx:69 | `toLowerCase` (also at src/components/Table.jsx:16 and 73 and src/App.jsx:29) keeps the length, maps each character, and leaves no ASCII capital. |
| `Strings.Contains` | src/App.jsx:29 | `includes` holds iff the needle occurs in the haystack at some offset. |
| `Strings.CodePointCompare` | src/components/Table.jsx:40 | A concrete `localeCompare`: its sign is in -1..1, and it is 0 iff the strings are equal. |
| `Strings.CodePointCompareIsCollation` | src/components/Table.jsx:40 | Code-point order obeys the collation laws the ordering lemmas require of `localeCompare`. |
| `StableSort.Sort` | src/components/Table.jsx:22 | The sorted copy is a permutation of the input. |
| `StableSort.SortTwo` | src/components/Table.jsx:22 | Two rows change places only when the first compares strictly after the second. |
| `StableSort.SortOrdered` | src/components/Table.jsx:22 | With a lawful comparator, every row comes no later than any row after it. |
| `StableSort.SortKeepsTies` | src/components/Table.jsx:22 | Rows that compare equal keep their input order (stability). |
| `StableSort.SortAllTiedIsIdentity` | src/components/Table.jsx:22 | A comparator that ties every pair returns the input unchanged. |
| `StableSort.OrderedUnique` | src/components/Table.jsx:22 | Without ties, there is only one ordered arrangement of a given multiset of rows. |
| `StableSort.NegatedSortIsReversed` | src/components/Table.jsx:28-29 | Without ties, sorting with the negated comparator gives the reverse of sorting with the comparator. |
| `Table.GetUserByOwnerId` | src/components/Table.jsx:14-19 | Returns the lower-cased name of a user in the table whose id is `ownerId`. |
| `Table.ColumnMap` | src/components/Table.jsx:96-103 | Maps each header to its product field; `HeaderOf` inverts it, so no two headers sort by the same field. |
| `Table.ColumnMapOnto` | src/components/Table.jsx:96-103 | Every product field is sorted by some header. |
| `Table.Resolves` | src/components/Table.jsx:35-55 | The ID and Product columns look nothing up. The Category and User columns need the product's category, and the User column also its owner. A product whose category and owner exist resolves on every column. |
| `Table.Comparable` | src/components/Table.jsx:21-55 | A list of fewer than two rows never reaches the comparator, so it is always sortable. A list whose categories and owners all exist is sortable on every column. A longer sortable list has every row resolving. |
| `Table.TextKey` | src/components/Table.jsx:35-74 | The Product key is the lower-cased name, and the User key the lower-cased owner name; neither contains an ASCII capital. The Category key is the raw title of the product's category. |
| `Table.Cmp` | src/components/Table.jsx:22 | The closure handed to `sort` agrees with `Compare` on every pair of rows that resolve, and ties every pair when the counter is 0 modulo 3. |
| `Table.Compare` | src/components/Table.jsx:21-78 | For every column, the comparator reports a tie whenever `state % 3 == 0`. |
| `Table.CompareAntisymmetric` | src/components/Table.jsx:21-78 | Swapping the arguments flips the sign of the comparator, given a collation. |
| `Table.CompareTransitive` | src/components/Table.jsx:21-78 | "Not after" is transitive, in both directions and on every column. |
| `Table.CmpLawful` | src/components/Table.jsx:21-78 | The comparator is a total preorder on the rows whose lookups succeed. |
| `Table.DescendingNegatesAscending` | src/components/Table.jsx:23-76 | For the same column and lookups, the comparator for a counter of 2 modulo 3 is exactly the negation of the one for 1 modulo 3, and resolves the same rows. |
| `Table.TieIsSameKey` | src/components/Table.jsx:21-78 | Once a direction is chosen, two rows tie iff their column keys tie. |
| `Table.SortColumn` | src/components/Table.jsx:21-78 | The copy is a permutation of `arr`. When `state % 3 == 0` it is `arr` itself, in input order. |
| `Table.SortColumnOrdered` | src/components/Table.jsx:21-78 | The sorted copy is in the comparator's order. |
| `Table.IdAscending` | src/components/Table.jsx:23-27 | Column `id` with `state % 3 == 1`: ids never decrease down the table. |
| `Table.IdDescending` | src/components/Table.jsx:28-30 | Column `id` with `state % 3 == 2`: ids never increase down the table. |
| `Table.TextAscending` | src/components/Table.jsx:35-76 | A text column with `state % 3 == 1`: the keys never go backwards in the collation. The keys are the lower-cased name, the raw category title, or the lower-cased owner name. |
| `Table.TextDescending` | src/components/Table.jsx:35-76 | A text column with `state % 3 == 2`: the keys never go forwards in the collation. |
| `Table.SortColumnStable` | src/components/Table.jsx:21-78 | In every direction, rows with the same key appear in the sorted copy in their input order. |
| `Table.DescendingIsReversed` | src/components/Table.jsx:21-78 | When no two rows share a key, descending is ascending read backwards. |
| `Table.IdDescendingIsReversed` | src/components/Table.jsx:23-33 | With pairwise distinct ids, the descending id order is the reverse of the ascending one. |
| `Table.NameCompareIgnoresCase` | src/components/Table.jsx:68-74 | Names that are equal up to letter case compare the same on the Product column. |
| `Table.OwnerCompareIgnoresCase` | src/components/Table.jsx:50-63 | Owner names that are equal up to letter case compare the same on the User column. |
| `Table.ActiveEntry` | src/components/Table.jsx:84-87 | Finds nothing iff every counter is 0. Otherwise it returns a nonzero counter with its column, and every column before it in key order is 0. |
| `Table.Clicked` | src/components/Table.jsx:122-134 | The clicked column's counter becomes its previous value plus one. The other three become 0. |
| `Table.ClickActivates` | src/components/Table.jsx:122-134 | After a click, at most one column is active, and it is the clicked column. |
| `Table.ClicksKeepOneActive` | src/components/Table.jsx:121-257 | Any series of clicks keeps at most one column active. Once there has been a click, the last-clicked column is the active one. |
| `Table.NoSortInactive` | src/App.jsx:47-52 | The initial counters have no active column. |
| `Table.RepeatedClicks` | src/components/Table.jsx:124 | n clicks in a row on one column add n to its counter and leave the other columns at 0. |
| `Table.IconOf` | src/components/Table.jsx:141-148 | Exactly one of `fa-sort`, `fa-sort-up` and `fa-sort-down` applies. |
| `Table.IconMatchesOrder` | src/components/Table.jsx:141-148 | With `fa-sort` the rows are in input order. With `fa-sort-up` they are ascending, and with `fa-sort-down` descending. |
| `Table.View` | src/components/Table.jsx:83-106 | The displayed rows are a permutation of `products`, and equal to `products` when no counter selects a direction. |
| `Table.ConsistentViewDefined` | src/components/Table.jsx:83-106 | Products whose category and owner exist can be displayed under any counters. |
| `Table.ViewAfterClick` | src/components/Table.jsx:130-132 | The rows a click handler stores are the rows the effect recomputes from the new counters. |
| `Table.TableView.constructor` | src/components/Table.jsx:80-81 | Mounting starts from a copy of `products`, then the effect runs. The state is the view. |
| `Table.TableView.Effect` | src/components/Table.jsx:83-106 | Sets `sortedProducts` to the view of the current products and counters, and changes nothing else. |
| `Table.TableView.Receive` | src/components/Table.jsx:106 | New products or counters rerun the effect. |
| `Table.TableView.Click` | src/components/Table.jsx:121-136 | The counters become `Clicked(old, col)`. The rows become the products sorted on the clicked column. The effect agrees with both. |
| `App.FilterByUser` | src/App.jsx:18-25 | Equals `Select` by "the category's owner has the selected id". |
| `App.FilterByProductName` | src/App.jsx:27-31 | Equals `Select` by "the lower-cased name contains the lower-cased input". |
| `App.FilterByCategory` | src/App.jsx:33-39 | Equals `Select` by "the category title equals the selected name". |
| `App.UserFilterKeepsOwned` | src/App.jsx:18-25 | A product is kept iff its category's `ownerId` is the selected id. The result is an order-preserving subsequence of the input. |
| `App.CategoryFilterKeepsTitled` | src/App.jsx:33-39 | A product is kept iff its category title equals the selected name, compared with case. The result is a subsequence. |
| `App.NameFilterKeepsMatching` | src/App.jsx:27-31 | A product is kept iff its lower-cased name contains the lower-cased input. The result is a subsequence. |
| `App.EmptySearchKeepsAll` | src/App.jsx:27-31 | An empty search keeps every product. |
| `App.SearchIgnoresCase` | src/App.jsx:29 | Searching for the text or for its lower-cased form gives the same result. |
| `App.FiltersIdempotent` | src/App.jsx:18-39 | Applying a filter twice is the same as applying it once. |
| `App.FiltersCommute` | src/App.jsx:18-39 | Any two filters give the same result in either order. |
| `App.Criteria` | src/App.jsx:55-63 | Every shown product matches the search. It is owned by the selected user when one is selected, and has the selected category title when one is selected. With neither selected, the criteria are exactly the search. |
| `App.AppState.constructor` | src/App.jsx:41-53 | The initial state: user 0, empty search, category "All", all counters 0. Every product is shown. |
| `App.AppState.Shown` | src/App.jsx:55-63 | The shown products are an order-preserving subsequence of the product list, and each meets the criteria. |
| `App.AppState.ResetShowsAll` | src/App.jsx:44-46 | With the initial filter settings, the shown list is the whole product list. |
| `App.AppState.Filter` | src/App.jsx:55-69 | The filters are applied in the source's order: user if the id is not 0, category if it is not "All", then name always. The result equals the single selection by the conjunction of the applied criteria. `isFilterClear` holds iff nothing is left. |
| `App.AppState.Render` | src/App.jsx:204-214 | The table is shown iff `isFilterClear` is false. When shown, it displays the view of the filtered products under the current counters. |
| `App.AppState.SelectUser` | src/App.jsx:103 | Sets only the selected user (0 for the "All" tab, src/App.jsx:84). |
| `App.AppState.SetInputText` | src/App.jsx:119 | Sets only the search text. The clear button sets it to `""` (src/App.jsx:129). |
| `App.AppState.SelectCategory` | src/App.jsx:162 | Sets only the category name ("All" at src/App.jsx:144). |
| `App.AppState.SortBy` | src/App.jsx:212 | The counter handler passed to the table applies one click transition to the page's counters and nothing else. |
| `App.AppState.ResetAll` | src/App.jsx:182-194 | User 0, empty search, category "All", all counters 0. Every product is shown, in input order. |
| `App.AllUsersTabActive` | src/App.jsx:89 | The "All" users tab is active iff no user has the selected id. |
| `App.UserTabActive` | src/App.jsx:100 | An active user tab rules out the "All" tab for any users list that contains that user. |
| `App.OneUserTabKind` | src/App.jsx:89-100 | The "All" tab is active iff no user tab is active. |
| `App.ClearButtonShown` | src/App.jsx:127 | The clear button is shown iff the search text is non-empty. |
| `Scenarios.SearchMi` | src/App.jsx:27-31 | Searching "mi" over Milk and Bread keeps only Milk. |
| `Scenarios.UserBob` | src/App.jsx:18-25 | Selecting Bob (id 2) keeps only Bread. |
| `Scenarios.CategoryDairy` | src/App.jsx:33-39 | Selecting "Dairy" keeps only Milk. |
| `Scenarios.SearchNothing` | src/App.jsx:63-69 | Searching "zzz" leaves nothing, both for the name filter alone and for the page's combined criteria with no user or category selected, so `isFilterClear` is set. |
| `Scenarios.MilkAfterBread` | src/components/Table.jsx:68-74 | On the Product column, Milk compares after Bread when ascending and before it when descending. |
| `Scenarios.SortPair` | src/components/Table.jsx:21-78 | On any column with a direction chosen, two rows change places only when the first compares after the second. |
| `Scenarios.ProductFirstClick` | src/components/Table.jsx:160-175 | After one click on Product the rows are Bread, Milk. |
| `Scenarios.ProductSecondClick` | src/components/Table.jsx:160-175 | After two clicks they are Milk, Bread. |
| `Scenarios.ProductThirdClick` | src/components/Table.jsx:160-175 | The third click gives the input order back. |
| `Scenarios.PearAfterPlantain` | src/components/Table.jsx:36-44 | Under code-point order, on the Category column a product titled "apples" compares after one titled "Bananas". |
| `Scenarios.CategorySortIsCaseSensitive` | src/components/Table.jsx:36-44 | Under code-point order, ascending by Category puts the "Bananas" product before the "apples" product. |
| `Scenarios.LowerCasedTitlesOrder` | src/components/Table.jsx:36-44 | Under code-point order, the lower-cased titles compare the other way round: "apples" comes before "bananas". |

## Left out

- Rendering is not modelled: JSX markup, CSS classes (the category buttons' `is-outlined` / `is-info` at src/App.jsx:149 and 167 among them), `data-cy` attributes, `preventDefault`, and the table rows with their sex-based colouring (src/components/Table.jsx:278-304). They are presentation and compute nothing else.
- React scheduling is reduced to method calls. `TableView.Click` runs the handler's update and then the effect, because the new counters re-trigger it. Batching and the render cycle are not modelled.
- `TableView.sortObj` mirrors the prop the page passes to the table. `AppState.SortBy` is the same transition applied to the page's own state cell.
- `localeCompare` is a parameter. The ordering lemmas require it to be a collation (`IsCollation`); its locale rules are implementation-defined.
- `Lower` maps ASCII capitals only. Unicode case mapping is not modelled.
- Ids are unbounded integers, so `a.id - b.id` cannot overflow or give `NaN` in the model.
- The sort is a stable insertion sort. Its results are characterised by the ordering, stability and permutation lemmas, which are what a stable `Array.prototype.sort` guarantees for a lawful comparator.
- `Table.Cmp` answers "tie" for a row whose lookup fails. No such row reaches it under `Comparable`, which the source's crash makes a precondition.
- A failed lookup in a filter, the sort or the rows crashes the source. The model makes every such lookup a precondition (`Consistent`, `Comparable`) instead of an error result.
- The `?? ''` fallback in `getUserByOwnerId` can never apply, so it is not modelled.
- The assignment `isFilterClear = false` inside the reset handler (src/App.jsx:187) has no effect, so it is not modelled.
- The fixture modules under `src/api/` are not part of this model. Users, categories and products are parameters.
