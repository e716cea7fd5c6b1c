/** The catalogue page: the three product filters, the pipeline that applies
    them in a fixed order, the "no products" flag, and the page state the
    filter controls and the reset button change. */
module App {
  import opened Catalog
  import opened Strings
  import opened Seqs
  import opened Table

  // ---------------------------------------------------------------------
  // What each filter keeps

  /** Products whose category's owner is the user with id `userId`. */
  ghost function OwnedBy(fx: Fixtures, userId: int): iset<Product> {
    iset p: Product | OwnerResolves(fx, p) && OwnerOf(fx, p).id == userId
  }

  /** Products whose category title is exactly `title`. */
  ghost function InCategory(fx: Fixtures, title: string): iset<Product> {
    iset p: Product | CategoryResolves(fx, p) && CategoryOf(fx, p).title == title
  }

  /** Products whose lower-cased name contains the lower-cased `input`. */
  ghost function NameMatches(input: string): iset<Product> {
    iset p: Product | Contains(Lower(p.name), Lower(input))
  }

  ghost const Everything: iset<Product> := iset p: Product | true

  // ---------------------------------------------------------------------
  // The filters

  /** `filterByUser`: the products whose category's owner has id
      `selectedUserId`, in input order. */
  function FilterByUser(fx: Fixtures, arr: seq<Product>, selectedUserId: int): (r: seq<Product>)
    requires Consistent(fx, arr)
    ensures r == Select(arr, OwnedBy(fx, selectedUserId))
  {
    if arr == [] then []
    else
      var rest := FilterByUser(fx, arr[1..], selectedUserId);
      assert OwnerResolves(fx, arr[0]);
      var category := CategoryOf(fx, arr[0]);
      var user := FindUser(fx.users, category.ownerId).value;
      if user.id == selectedUserId then [arr[0]] + rest else rest
  }

  /** `filterByProductName`: the products whose lower-cased name contains
      the lower-cased `input`, in input order. */
  function FilterByProductName(arr: seq<Product>, input: string): (r: seq<Product>)
    ensures r == Select(arr, NameMatches(input))
  {
    if arr == [] then []
    else
      var rest := FilterByProductName(arr[1..], input);
      if Contains(Lower(arr[0].name), Lower(input)) then [arr[0]] + rest else rest
  }

  /** `filterByCategory`: the products whose category title equals
      `categoryName`, in input order. */
  function FilterByCategory(fx: Fixtures, arr: seq<Product>, categoryName: string): (r: seq<Product>)
    requires forall p :: p in arr ==> CategoryResolves(fx, p)
    ensures r == Select(arr, InCategory(fx, categoryName))
  {
    if arr == [] then []
    else
      var rest := FilterByCategory(fx, arr[1..], categoryName);
      var category := CategoryOf(fx, arr[0]);
      if category.title == categoryName then [arr[0]] + rest else rest
  }

  // ---------------------------------------------------------------------
  // What the filters keep, exactly

  lemma UserFilterKeepsOwned(fx: Fixtures, arr: seq<Product>, selectedUserId: int)
    requires Consistent(fx, arr)
    ensures forall p :: p in FilterByUser(fx, arr, selectedUserId) <==>
                        p in arr && CategoryOf(fx, p).ownerId == selectedUserId
    ensures IsSubsequence(FilterByUser(fx, arr, selectedUserId), arr)
  {
    SelectMultiset(arr, OwnedBy(fx, selectedUserId));
    SelectIsSubsequence(arr, OwnedBy(fx, selectedUserId));
  }

  lemma CategoryFilterKeepsTitled(fx: Fixtures, arr: seq<Product>, categoryName: string)
    requires forall p :: p in arr ==> CategoryResolves(fx, p)
    ensures forall p :: p in FilterByCategory(fx, arr, categoryName) <==>
                        p in arr && CategoryOf(fx, p).title == categoryName
    ensures IsSubsequence(FilterByCategory(fx, arr, categoryName), arr)
  {
    SelectMultiset(arr, InCategory(fx, categoryName));
    SelectIsSubsequence(arr, InCategory(fx, categoryName));
  }

  lemma NameFilterKeepsMatching(arr: seq<Product>, input: string)
    ensures forall p :: p in FilterByProductName(arr, input) <==>
                        p in arr && Contains(Lower(p.name), Lower(input))
    ensures IsSubsequence(FilterByProductName(arr, input), arr)
  {
    SelectMultiset(arr, NameMatches(input));
    SelectIsSubsequence(arr, NameMatches(input));
  }

  /** Every product name contains the empty search text. */
  lemma EmptySearchKeepsAll(arr: seq<Product>)
    ensures FilterByProductName(arr, "") == arr
  {
    forall p: Product ensures p in NameMatches("") {
      assert OccursAt(Lower(p.name), Lower(""), 0);
    }
    SelectEverything(arr, NameMatches(""));
  }

  /** The search ignores the letter case of the search text. */
  lemma SearchIgnoresCase(arr: seq<Product>, input: string)
    ensures FilterByProductName(arr, input) == FilterByProductName(arr, Lower(input))
  {
    LowerIdempotent(input);
    assert NameMatches(input) == NameMatches(Lower(input));
  }

  /** Filtering twice with the same filter is filtering once. */
  lemma FiltersIdempotent(fx: Fixtures, arr: seq<Product>, selectedUserId: int, categoryName: string, input: string)
    requires Consistent(fx, arr)
    ensures Consistent(fx, FilterByUser(fx, arr, selectedUserId))
    ensures FilterByUser(fx, FilterByUser(fx, arr, selectedUserId), selectedUserId) == FilterByUser(fx, arr, selectedUserId)
    ensures forall p :: p in FilterByCategory(fx, arr, categoryName) ==> CategoryResolves(fx, p)
    ensures FilterByCategory(fx, FilterByCategory(fx, arr, categoryName), categoryName) == FilterByCategory(fx, arr, categoryName)
    ensures FilterByProductName(FilterByProductName(arr, input), input) == FilterByProductName(arr, input)
  {
    UserFilterKeepsOwned(fx, arr, selectedUserId);
    CategoryFilterKeepsTitled(fx, arr, categoryName);
    SelectIdempotent(arr, OwnedBy(fx, selectedUserId));
    SelectIdempotent(arr, InCategory(fx, categoryName));
    SelectIdempotent(arr, NameMatches(input));
  }

  /** Any two filters give the same result in either order. */
  lemma FiltersCommute(fx: Fixtures, arr: seq<Product>, selectedUserId: int, categoryName: string, input: string)
    requires Consistent(fx, arr)
    ensures Consistent(fx, FilterByUser(fx, arr, selectedUserId))
    ensures Consistent(fx, FilterByCategory(fx, arr, categoryName))
    ensures Consistent(fx, FilterByProductName(arr, input))
    ensures FilterByCategory(fx, FilterByUser(fx, arr, selectedUserId), categoryName)
         == FilterByUser(fx, FilterByCategory(fx, arr, categoryName), selectedUserId)
    ensures FilterByProductName(FilterByUser(fx, arr, selectedUserId), input)
         == FilterByUser(fx, FilterByProductName(arr, input), selectedUserId)
    ensures FilterByProductName(FilterByCategory(fx, arr, categoryName), input)
         == FilterByCategory(fx, FilterByProductName(arr, input), categoryName)
  {
    UserFilterKeepsOwned(fx, arr, selectedUserId);
    CategoryFilterKeepsTitled(fx, arr, categoryName);
    NameFilterKeepsMatching(arr, input);
    var owned, titled, named := OwnedBy(fx, selectedUserId), InCategory(fx, categoryName), NameMatches(input);
    SelectCommutes(arr, owned, titled);
    SelectCommutes(arr, owned, named);
    SelectCommutes(arr, titled, named);
  }

  // ---------------------------------------------------------------------
  // The pipeline

  /** The products the page shows for the given filter settings: the user
      filter applies unless the user id is 0, the category filter unless the
      category is "All", and the search always. */
  ghost function Criteria(fx: Fixtures, selectedUserId: int, categoryName: string, inputText: string): (keep: iset<Product>)
    ensures forall p :: p in keep ==> p in NameMatches(inputText)
    ensures selectedUserId != 0 ==> forall p :: p in keep ==> p in OwnedBy(fx, selectedUserId)
    ensures categoryName != "All" ==> forall p :: p in keep ==> p in InCategory(fx, categoryName)
    ensures selectedUserId == 0 && categoryName == "All" ==> keep == NameMatches(inputText)
  {
    (if selectedUserId != 0 then OwnedBy(fx, selectedUserId) else Everything)
    * (if categoryName != "All" then InCategory(fx, categoryName) else Everything)
    * NameMatches(inputText)
  }

  /** The page state: the product list, the three filter settings and the
      sort counters, each a state cell of the page. */
  class AppState {
    const fx: Fixtures
    const localeCompare: (string, string) -> int
    const productsFromServer: seq<Product>
    var selectedUserId: int
    var inputText: string
    var categoryName: string
    var sortObj: SortObj

    /** The products the filters let through. */
    ghost function Shown(): (r: seq<Product>)
      reads this
      ensures IsSubsequence(r, productsFromServer)
      ensures forall p :: p in r ==> p in productsFromServer && p in Criteria(fx, selectedUserId, categoryName, inputText)
    {
      var keep := Criteria(fx, selectedUserId, categoryName, inputText);
      SelectIsSubsequence(productsFromServer, keep);
      SelectMultiset(productsFromServer, keep);
      Select(productsFromServer, keep)
    }

    constructor (fx: Fixtures, localeCompare: (string, string) -> int, productsFromServer: seq<Product>)
      requires Consistent(fx, productsFromServer)
      ensures this.fx == fx && this.localeCompare == localeCompare
      ensures this.productsFromServer == productsFromServer
      ensures selectedUserId == 0 && inputText == "" && categoryName == "All" && sortObj == NoSort
      ensures Shown() == productsFromServer
    {
      this.fx := fx;
      this.localeCompare := localeCompare;
      this.productsFromServer := productsFromServer;
      selectedUserId := 0;
      inputText := "";
      categoryName := "All";
      sortObj := NoSort;
      new;
      ResetShowsAll();
    }

    /** With every filter at its initial setting, every product is shown. */
    lemma ResetShowsAll()
      requires selectedUserId == 0 && categoryName == "All" && inputText == ""
      ensures Shown() == productsFromServer
    {
      EmptySearchKeepsAll(productsFromServer);
      var criteria := Criteria(fx, selectedUserId, categoryName, inputText);
      assert criteria == NameMatches("") by {
        assert Everything * Everything * NameMatches("") == NameMatches("");
      }
    }

    /** Every shown product has a category and an owner. */
    lemma ShownConsistent()
      requires Consistent(fx, productsFromServer)
      ensures Consistent(fx, Shown())
    {
      SelectMultiset(productsFromServer, Criteria(fx, selectedUserId, categoryName, inputText));
    }

    /** The body of the page component: filter step by step, then set the
        flag that hides the table. */
    method Filter() returns (products: seq<Product>, isFilterClear: bool)
      requires Consistent(fx, productsFromServer)
      ensures products == Shown()
      ensures isFilterClear <==> products == []
    {
      products := productsFromServer;
      ghost var keep: iset<Product> := Everything;
      SelectEverything(productsFromServer, keep);
      if selectedUserId != 0 {
        SelectMultiset(productsFromServer, keep);
        SelectSelect(productsFromServer, keep, OwnedBy(fx, selectedUserId));
        products := FilterByUser(fx, products, selectedUserId);
        keep := keep * OwnedBy(fx, selectedUserId);
      }
      if categoryName != "All" {
        SelectMultiset(productsFromServer, keep);
        SelectSelect(productsFromServer, keep, InCategory(fx, categoryName));
        products := FilterByCategory(fx, products, categoryName);
        keep := keep * InCategory(fx, categoryName);
      }
      SelectSelect(productsFromServer, keep, NameMatches(inputText));
      products := FilterByProductName(products, inputText);
      keep := keep * NameMatches(inputText);
      assert keep == Criteria(fx, selectedUserId, categoryName, inputText);
      if |products| == 0 {
        isFilterClear := true;
      } else {
        isFilterClear := false;
      }
    }

    /** Rendering: the filtered products, and the table that shows them
        unless no product is left. */
    method Render() returns (products: seq<Product>, isFilterClear: bool, table: TableView?)
      requires Consistent(fx, productsFromServer)
      ensures products == Shown()
      ensures isFilterClear <==> table == null
      ensures isFilterClear <==> products == []
      ensures table != null ==> (fresh(table) && table.fx == fx && table.localeCompare == localeCompare &&
                                 table.products == products && table.sortObj == sortObj && table.Valid() &&
                                 table.sortedProducts == View(fx, localeCompare, products, sortObj))
    {
      products, isFilterClear := Filter();
      if isFilterClear {
        table := null;
      } else {
        ShownConsistent();
        ConsistentViewDefined(fx, localeCompare, products, sortObj);
        table := new TableView(fx, localeCompare, products, sortObj);
      }
    }

    /** The "All" users tab and each user tab. */
    method SelectUser(id: int)
      modifies this
      ensures selectedUserId == id
      ensures inputText == old(inputText) && categoryName == old(categoryName) && sortObj == old(sortObj)
    {
      selectedUserId := id;
    }

    /** Typing in the search field, or the clear button with `text == ""`. */
    method SetInputText(text: string)
      modifies this
      ensures inputText == text
      ensures selectedUserId == old(selectedUserId) && categoryName == old(categoryName) && sortObj == old(sortObj)
    {
      inputText := text;
    }

    /** The "All" categories button and each category button. */
    method SelectCategory(title: string)
      modifies this
      ensures categoryName == title
      ensures selectedUserId == old(selectedUserId) && inputText == old(inputText) && sortObj == old(sortObj)
    {
      categoryName := title;
    }

    /** A click on a table header, through the handler the table receives. */
    method SortBy(col: Column)
      modifies this
      ensures sortObj == Clicked(old(sortObj), col)
      ensures selectedUserId == old(selectedUserId) && inputText == old(inputText) && categoryName == old(categoryName)
    {
      sortObj := Clicked(sortObj, col);
    }

    /** "Reset all filters": every filter and every counter back to its
        initial value, so every product is shown in its original order. */
    method ResetAll()
      requires Consistent(fx, productsFromServer)
      modifies this
      ensures selectedUserId == 0 && inputText == "" && categoryName == "All" && sortObj == NoSort
      ensures Shown() == productsFromServer
      ensures View(fx, localeCompare, Shown(), sortObj) == productsFromServer
    {
      categoryName := "All";
      selectedUserId := 0;
      inputText := "";
      sortObj := NoSort;
      ResetShowsAll();
    }
  }

  // ---------------------------------------------------------------------
  // Controls derived from the state

  /** The "All" users tab is highlighted when no user has the selected id. */
  function AllUsersTabActive(users: seq<User>, selectedUserId: int): (r: bool)
    ensures r <==> FindUser(users, selectedUserId).None?
  {
    forall user :: user in users ==> user.id != selectedUserId
  }

  /** A user's tab is highlighted when it is the selected user. */
  function UserTabActive(user: User, selectedUserId: int): (r: bool)
    ensures r ==> forall users :: user in users ==> !AllUsersTabActive(users, selectedUserId)
  {
    user.id == selectedUserId
  }

  /** Exactly one of "the All tab" and "some user tab" is highlighted. */
  lemma OneUserTabKind(users: seq<User>, selectedUserId: int)
    ensures AllUsersTabActive(users, selectedUserId) <==> !exists user :: user in users && UserTabActive(user, selectedUserId)
  {
  }

  /** The search field's clear button is shown when there is text to clear. */
  function ClearButtonShown(inputText: string): (r: bool)
    ensures r <==> |inputText| > 0
  {
    inputText != ""
  }
}
