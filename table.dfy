/** The sortable product table: the comparator built by `sortColumn`, the
    per-column click counters that choose the active column and direction,
    the icon each header shows, and the component that holds the displayed
    rows. */
module Table {
  import opened Catalog
  import opened Strings
  import opened Seqs
  import StableSort

  /** The column headers, in the key order of the counter object. */
  datatype Column = IdColumn | ProductColumn | CategoryColumn | UserColumn

  /** The `column` argument of `sortColumn`: the product field a header sorts by. */
  datatype Field = IdField | NameField | CategoryIdField | OwnerIdField

  /** The per-column click counters; only `counter % 3` is meaningful. */
  datatype SortObj = SortObj(id: nat, product: nat, category: nat, user: nat)
  {
    function Get(col: Column): nat {
      match col
      case IdColumn => id
      case ProductColumn => product
      case CategoryColumn => category
      case UserColumn => user
    }
  }

  const NoSort := SortObj(0, 0, 0, 0)

  /** Position of a column among the keys of the counter object. */
  function Rank(col: Column): nat {
    match col
    case IdColumn => 0
    case ProductColumn => 1
    case CategoryColumn => 2
    case UserColumn => 3
  }

  /** The header that sorts by a product field. */
  function HeaderOf(f: Field): Column {
    match f
    case IdField => IdColumn
    case NameField => ProductColumn
    case CategoryIdField => CategoryColumn
    case OwnerIdField => UserColumn
  }

  /** The column map of the effect: header label to product field. Each
      header sorts by its own field, so the map is one-to-one. */
  function ColumnMap(col: Column): (f: Field)
    ensures HeaderOf(f) == col
  {
    match col
    case IdColumn => IdField
    case ProductColumn => NameField
    case CategoryColumn => CategoryIdField
    case UserColumn => OwnerIdField
  }

  /** Every field is sorted by exactly the header `HeaderOf` names. */
  lemma ColumnMapOnto(f: Field)
    ensures ColumnMap(HeaderOf(f)) == f
  {
  }

  // ---------------------------------------------------------------------
  // The comparator of `sortColumn`

  /** Everything the comparator handed to `Array.prototype.sort` closes over:
      the fixture tables, the collation behind `localeCompare`, the field
      and the counter value. */
  datatype Comparator = Comparator(fx: Fixtures, localeCompare: (string, string) -> int, field: Field, state: nat)

  /** The lookups the comparator performs on `p` succeed. The ID and
      Product columns look nothing up; the Category column needs the
      product's category and the User column also its owner. */
  function Resolves(c: Comparator, p: Product): (r: bool)
    ensures c.field == IdField || c.field == NameField ==> r
    ensures OwnerResolves(c.fx, p) ==> r
    ensures r && c.field != IdField && c.field != NameField ==> CategoryResolves(c.fx, p)
  {
    match c.field
    case IdField => true
    case NameField => true
    case CategoryIdField => CategoryResolves(c.fx, p)
    case OwnerIdField => OwnerResolves(c.fx, p)
  }

  predicate AllResolve(c: Comparator, s: seq<Product>) {
    forall i :: 0 <= i < |s| ==> Resolves(c, s[i])
  }

  /** What sorting `s` demands: a sort of fewer than two rows never calls
      the comparator, a longer one calls it on every row. */
  function Comparable(c: Comparator, s: seq<Product>): (r: bool)
    ensures |s| < 2 ==> r
    ensures (forall i :: 0 <= i < |s| ==> OwnerResolves(c.fx, s[i])) ==> r
    ensures r && |s| > 1 ==> forall i :: 0 <= i < |s| ==> Resolves(c, s[i])
  {
    |s| > 1 ==> AllResolve(c, s)
  }

  /** `getUserByOwnerId`: the owner's name, lower-cased. */
  function GetUserByOwnerId(fx: Fixtures, ownerId: int): (name: string)
    requires FindUser(fx.users, ownerId).Some?
    ensures exists u :: u in fx.users && u.id == ownerId && name == Lower(u.name)
  {
    Lower(FindUser(fx.users, ownerId).value.name)
  }

  /** The string a text column compares: the lower-cased product name, the
      category title exactly as stored, or the lower-cased owner name. */
  function TextKey(c: Comparator, p: Product): (k: string)
    requires c.field != IdField && Resolves(c, p)
    ensures c.field != CategoryIdField ==> forall i :: 0 <= i < |k| ==> !('A' <= k[i] <= 'Z')
    ensures c.field == NameField ==> k == Lower(p.name)
    ensures c.field == CategoryIdField ==> k == CategoryOf(c.fx, p).title
    ensures c.field == OwnerIdField ==> k == Lower(OwnerOf(c.fx, p).name)
  {
    match c.field
    case NameField => Lower(p.name)
    case CategoryIdField => CategoryOf(c.fx, p).title
    case OwnerIdField => GetUserByOwnerId(c.fx, CategoryOf(c.fx, p).ownerId)
  }

  /** The comparator of `sortColumn`: negative when `a` goes first. */
  function Compare(c: Comparator, a: Product, b: Product): (r: int)
    requires Resolves(c, a) && Resolves(c, b)
    ensures c.state % 3 == 0 ==> r == 0
  {
    if c.field == IdField then
      if c.state % 3 == 1 then a.id - b.id
      else if c.state % 3 == 2 then b.id - a.id
      else 0
    else
      var ka, kb := TextKey(c, a), TextKey(c, b);
      if c.state % 3 == 1 then c.localeCompare(ka, kb)
      else if c.state % 3 == 2 then -c.localeCompare(ka, kb)
      else 0
  }

  /** The comparator as the sort receives it. Rows whose lookups fail never
      reach it under `Comparable`; for them it answers "tie". */
  function Cmp(c: Comparator): (r: (Product, Product) -> int)
    ensures forall a, b :: Resolves(c, a) && Resolves(c, b) ==> r(a, b) == Compare(c, a, b)
    ensures c.state % 3 == 0 ==> forall a, b :: r(a, b) == 0
  {
    (a: Product, b: Product) => if Resolves(c, a) && Resolves(c, b) then Compare(c, a, b) else 0
  }

  /** The rows the comparator can look up. */
  ghost function Resolving(c: Comparator): iset<Product> {
    iset p | Resolves(c, p)
  }

  /** The ids compare numerically; the text columns need a lawful collation. */
  ghost predicate Lawful(c: Comparator) {
    c.field == IdField || IsCollation(c.localeCompare)
  }

  /** Two rows have the same sort key on the comparator's column. */
  ghost predicate SameKey(c: Comparator, a: Product, b: Product)
    requires Resolves(c, a) && Resolves(c, b)
  {
    if c.field == IdField then a.id == b.id else c.localeCompare(TextKey(c, a), TextKey(c, b)) == 0
  }

  /** The rows with the same key as `k`. */
  ghost function Peers(c: Comparator, k: Product): iset<Product>
    requires Resolves(c, k)
  {
    iset p | Resolves(c, p) && SameKey(c, p, k)
  }

  lemma CompareAntisymmetric(c: Comparator, a: Product, b: Product)
    requires Lawful(c) && Resolves(c, a) && Resolves(c, b)
    ensures Compare(c, a, b) < 0 <==> Compare(c, b, a) > 0
  {
    if c.field != IdField {
      var ka, kb := TextKey(c, a), TextKey(c, b);
      assert c.localeCompare(ka, kb) < 0 <==> c.localeCompare(kb, ka) > 0;
    }
  }

  lemma CompareTransitive(c: Comparator, a: Product, b: Product, d: Product)
    requires Lawful(c) && Resolves(c, a) && Resolves(c, b) && Resolves(c, d)
    requires Compare(c, a, b) <= 0 && Compare(c, b, d) <= 0
    ensures Compare(c, a, d) <= 0
  {
    if c.field != IdField && c.state % 3 != 0 {
      var ka, kb, kd := TextKey(c, a), TextKey(c, b), TextKey(c, d);
      if c.state % 3 == 1 {
        assert c.localeCompare(ka, kb) <= 0 && c.localeCompare(kb, kd) <= 0;
      } else {
        assert c.localeCompare(kd, kb) <= 0 && c.localeCompare(kb, ka) <= 0 by {
          assert c.localeCompare(ka, kb) >= 0 && c.localeCompare(kb, kd) >= 0;
        }
      }
    }
  }

  /** The comparator is a total preorder on the rows it can look up. */
  lemma CmpLawful(c: Comparator)
    requires Lawful(c)
    ensures StableSort.Lawful(Cmp(c), Resolving(c))
  {
    var u := Resolving(c);
    forall a, b | a in u && b in u ensures Cmp(c)(a, b) < 0 <==> Cmp(c)(b, a) > 0 {
      CompareAntisymmetric(c, a, b);
    }
    forall a, b, d | a in u && b in u && d in u && Cmp(c)(a, b) <= 0 && Cmp(c)(b, d) <= 0
      ensures Cmp(c)(a, d) <= 0
    {
      CompareTransitive(c, a, b, d);
    }
  }

  /** The descending comparator is the ascending one negated. */
  lemma DescendingNegatesAscending(asc: Comparator, desc: Comparator, a: Product, b: Product)
    requires asc.state % 3 == 1 && desc.state % 3 == 2 && desc == asc.(state := desc.state)
    requires Resolves(asc, a) && Resolves(asc, b)
    ensures Resolves(desc, a) && Resolves(desc, b)
    ensures Compare(desc, a, b) == -Compare(asc, a, b)
  {
    if asc.field != IdField {
      assert TextKey(desc, a) == TextKey(asc, a) && TextKey(desc, b) == TextKey(asc, b);
    }
  }

  /** With a direction chosen, the comparator reports a tie exactly for rows
      with the same key. */
  lemma TieIsSameKey(c: Comparator, a: Product, b: Product)
    requires c.state % 3 != 0 && Resolves(c, a) && Resolves(c, b)
    ensures Compare(c, a, b) == 0 <==> SameKey(c, a, b)
  {
  }

  // ---------------------------------------------------------------------
  // `sortColumn`

  /** `sortColumn(arr, column, state)`: a sorted copy of `arr`. The argument
      is a value, so it is unchanged by construction. */
  function SortColumn(fx: Fixtures, localeCompare: (string, string) -> int, arr: seq<Product>, column: Field, state: nat): (r: seq<Product>)
    requires Comparable(Comparator(fx, localeCompare, column, state), arr)
    ensures multiset(r) == multiset(arr)
    ensures state % 3 == 0 ==> r == arr
  {
    var c := Comparator(fx, localeCompare, column, state);
    if state % 3 == 0 then StableSort.SortAllTiedIsIdentity(Cmp(c), arr); StableSort.Sort(Cmp(c), arr)
    else StableSort.Sort(Cmp(c), arr)
  }

  /** The rows of a sorted copy come in the comparator's order. */
  lemma SortColumnOrdered(fx: Fixtures, localeCompare: (string, string) -> int, arr: seq<Product>, column: Field, state: nat)
    requires Lawful(Comparator(fx, localeCompare, column, state))
    requires AllResolve(Comparator(fx, localeCompare, column, state), arr)
    ensures var c, r := Comparator(fx, localeCompare, column, state), SortColumn(fx, localeCompare, arr, column, state);
            AllResolve(c, r) && forall i, j :: 0 <= i < j < |r| ==> Compare(c, r[i], r[j]) <= 0
  {
    var c := Comparator(fx, localeCompare, column, state);
    var r := SortColumn(fx, localeCompare, arr, column, state);
    CmpLawful(c);
    StableSort.SortOrdered(Cmp(c), arr, Resolving(c));
    StableSort.SameWithin(arr, r, Resolving(c));
    assert forall i, j :: 0 <= i < j < |r| ==> Cmp(c)(r[i], r[j]) <= 0;
  }

  /** Column `id`, counter 1 modulo 3: ids never decrease down the table. */
  lemma IdAscending(fx: Fixtures, localeCompare: (string, string) -> int, arr: seq<Product>, state: nat)
    requires state % 3 == 1
    ensures var r := SortColumn(fx, localeCompare, arr, IdField, state);
            forall i, j :: 0 <= i < j < |r| ==> r[i].id <= r[j].id
  {
    SortColumnOrdered(fx, localeCompare, arr, IdField, state);
  }

  /** Column `id`, counter 2 modulo 3: ids never increase down the table. */
  lemma IdDescending(fx: Fixtures, localeCompare: (string, string) -> int, arr: seq<Product>, state: nat)
    requires state % 3 == 2
    ensures var r := SortColumn(fx, localeCompare, arr, IdField, state);
            forall i, j :: 0 <= i < j < |r| ==> r[i].id >= r[j].id
  {
    SortColumnOrdered(fx, localeCompare, arr, IdField, state);
  }

  /** A text column, counter 1 modulo 3: keys never go backwards in the
      collation. */
  lemma TextAscending(fx: Fixtures, localeCompare: (string, string) -> int, arr: seq<Product>, column: Field, state: nat)
    requires column != IdField && IsCollation(localeCompare) && state % 3 == 1
    requires AllResolve(Comparator(fx, localeCompare, column, state), arr)
    ensures var c, r := Comparator(fx, localeCompare, column, state), SortColumn(fx, localeCompare, arr, column, state);
            AllResolve(c, r) && forall i, j :: 0 <= i < j < |r| ==> localeCompare(TextKey(c, r[i]), TextKey(c, r[j])) <= 0
  {
    SortColumnOrdered(fx, localeCompare, arr, column, state);
  }

  /** A text column, counter 2 modulo 3: keys never go forwards in the
      collation. */
  lemma TextDescending(fx: Fixtures, localeCompare: (string, string) -> int, arr: seq<Product>, column: Field, state: nat)
    requires column != IdField && IsCollation(localeCompare) && state % 3 == 2
    requires AllResolve(Comparator(fx, localeCompare, column, state), arr)
    ensures var c, r := Comparator(fx, localeCompare, column, state), SortColumn(fx, localeCompare, arr, column, state);
            AllResolve(c, r) && forall i, j :: 0 <= i < j < |r| ==> localeCompare(TextKey(c, r[i]), TextKey(c, r[j])) >= 0
  {
    SortColumnOrdered(fx, localeCompare, arr, column, state);
  }

  /** Among rows that resolve, those tied with `k` are its peers. */
  lemma TiedArePeers(c: Comparator, s: seq<Product>, k: Product)
    requires c.state % 3 != 0 && AllResolve(c, s) && Resolves(c, k)
    ensures forall x :: x in s ==> (x in StableSort.TiedWith(Cmp(c), k) <==> x in Peers(c, k))
  {
    forall x | x in s ensures x in StableSort.TiedWith(Cmp(c), k) <==> x in Peers(c, k) {
      var i :| 0 <= i < |s| && s[i] == x;
      TieIsSameKey(c, x, k);
    }
  }

  /** Stability in every direction: the rows sharing a key with `k` appear
      in the sorted copy in the order they had in the input. */
  lemma SortColumnStable(fx: Fixtures, localeCompare: (string, string) -> int, arr: seq<Product>, column: Field, state: nat, k: Product)
    requires Lawful(Comparator(fx, localeCompare, column, state))
    requires AllResolve(Comparator(fx, localeCompare, column, state), arr)
    requires Resolves(Comparator(fx, localeCompare, column, state), k)
    ensures var c := Comparator(fx, localeCompare, column, state);
            Select(SortColumn(fx, localeCompare, arr, column, state), Peers(c, k)) == Select(arr, Peers(c, k))
  {
    var c := Comparator(fx, localeCompare, column, state);
    var r := SortColumn(fx, localeCompare, arr, column, state);
    if state % 3 != 0 {
      CmpLawful(c);
      StableSort.SortKeepsTies(Cmp(c), arr, k, Resolving(c));
      StableSort.SameWithin(arr, r, Resolving(c));
      TiedArePeers(c, arr, k);
      TiedArePeers(c, r, k);
      SelectAgree(arr, StableSort.TiedWith(Cmp(c), k), Peers(c, k));
      SelectAgree(r, StableSort.TiedWith(Cmp(c), k), Peers(c, k));
    }
  }

  /** When no two rows share a key, descending order is ascending order
      read backwards. */
  lemma DescendingIsReversed(fx: Fixtures, localeCompare: (string, string) -> int, arr: seq<Product>, column: Field, up: nat, down: nat)
    requires up % 3 == 1 && down % 3 == 2
    requires Lawful(Comparator(fx, localeCompare, column, up))
    requires AllResolve(Comparator(fx, localeCompare, column, up), arr)
    requires forall i, j :: 0 <= i < |arr| && 0 <= j < |arr| && i != j ==>
               !SameKey(Comparator(fx, localeCompare, column, up), arr[i], arr[j])
    ensures SortColumn(fx, localeCompare, arr, column, down) == Reverse(SortColumn(fx, localeCompare, arr, column, up))
  {
    var asc := Comparator(fx, localeCompare, column, up);
    var desc := Comparator(fx, localeCompare, column, down);
    var u := Resolving(asc);
    CmpLawful(asc);
    forall a, b | a in u && b in u ensures Cmp(desc)(a, b) == -Cmp(asc)(a, b) {
      DescendingNegatesAscending(asc, desc, a, b);
    }
    assert StableSort.NoTies(Cmp(asc), arr) by {
      forall i, j | 0 <= i < |arr| && 0 <= j < |arr| && i != j ensures Cmp(asc)(arr[i], arr[j]) != 0 {
        TieIsSameKey(asc, arr[i], arr[j]);
      }
    }
    StableSort.NegatedSortIsReversed(Cmp(asc), Cmp(desc), arr, u);
  }

  /** For the `id` column: with distinct ids, descending is ascending reversed. */
  lemma IdDescendingIsReversed(fx: Fixtures, localeCompare: (string, string) -> int, arr: seq<Product>, up: nat, down: nat)
    requires up % 3 == 1 && down % 3 == 2
    requires forall i, j :: 0 <= i < |arr| && 0 <= j < |arr| && i != j ==> arr[i].id != arr[j].id
    ensures SortColumn(fx, localeCompare, arr, IdField, down) == Reverse(SortColumn(fx, localeCompare, arr, IdField, up))
  {
    DescendingIsReversed(fx, localeCompare, arr, IdField, up, down);
  }

  /** The Product column compares names without regard to letter case. */
  lemma NameCompareIgnoresCase(c: Comparator, a: Product, b: Product, a': Product, b': Product)
    requires c.field == NameField
    requires Lower(a.name) == Lower(a'.name) && Lower(b.name) == Lower(b'.name)
    ensures Compare(c, a, b) == Compare(c, a', b')
  {
  }

  /** The User column compares owner names without regard to letter case. */
  lemma OwnerCompareIgnoresCase(c: Comparator, a: Product, b: Product, a': Product, b': Product)
    requires c.field == OwnerIdField
    requires Resolves(c, a) && Resolves(c, b) && Resolves(c, a') && Resolves(c, b')
    requires Lower(OwnerOf(c.fx, a).name) == Lower(OwnerOf(c.fx, a').name)
    requires Lower(OwnerOf(c.fx, b).name) == Lower(OwnerOf(c.fx, b').name)
    ensures Compare(c, a, b) == Compare(c, a', b')
  {
    SameKeysCompareAlike(c, a, b, a', b');
  }

  /** A text column's comparator sees only the two keys. */
  lemma SameKeysCompareAlike(c: Comparator, a: Product, b: Product, a': Product, b': Product)
    requires c.field != IdField
    requires Resolves(c, a) && Resolves(c, b) && Resolves(c, a') && Resolves(c, b')
    requires TextKey(c, a) == TextKey(c, a') && TextKey(c, b) == TextKey(c, b')
    ensures Compare(c, a, b) == Compare(c, a', b')
  {
  }


  // ---------------------------------------------------------------------
  // The click counters

  /** The first entry of the counter object whose value is not zero, as the
      effect finds it. */
  function ActiveEntry(so: SortObj): (r: Option<(Column, nat)>)
    ensures r.None? <==> forall col :: so.Get(col) == 0
    ensures r.Some? ==> so.Get(r.value.0) == r.value.1 != 0
    ensures r.Some? ==> forall col :: Rank(col) < Rank(r.value.0) ==> so.Get(col) == 0
  {
    if so.id != 0 then assert so.Get(IdColumn) != 0; Some((IdColumn, so.id))
    else if so.product != 0 then assert so.Get(ProductColumn) != 0; Some((ProductColumn, so.product))
    else if so.category != 0 then assert so.Get(CategoryColumn) != 0; Some((CategoryColumn, so.category))
    else if so.user != 0 then assert so.Get(UserColumn) != 0; Some((UserColumn, so.user))
    else None
  }

  /** The counter object a click on `col` produces from the previous one. */
  function Clicked(so: SortObj, col: Column): (r: SortObj)
    ensures r.Get(col) == so.Get(col) + 1
    ensures forall other :: other != col ==> r.Get(other) == 0
  {
    match col
    case IdColumn => SortObj(so.id + 1, 0, 0, 0)
    case ProductColumn => SortObj(0, so.product + 1, 0, 0)
    case CategoryColumn => SortObj(0, 0, so.category + 1, 0)
    case UserColumn => SortObj(0, 0, 0, so.user + 1)
  }

  /** At most one column has a nonzero counter. */
  ghost predicate AtMostOneActive(so: SortObj) {
    forall a, b :: so.Get(a) != 0 && so.Get(b) != 0 ==> a == b
  }

  /** The counters after a series of clicks, oldest first. */
  function ClickAll(so: SortObj, clicks: seq<Column>): SortObj
    decreases |clicks|
  {
    if clicks == [] then so else ClickAll(Clicked(so, clicks[0]), clicks[1..])
  }

  /** After a click exactly the clicked column is active. */
  lemma ClickActivates(so: SortObj, col: Column)
    ensures AtMostOneActive(Clicked(so, col))
    ensures ActiveEntry(Clicked(so, col)) == Some((col, so.Get(col) + 1))
  {
  }

  /** From any start with at most one active column, any series of clicks
      keeps at most one active; once there has been a click, the last
      clicked column is the active one. */
  lemma {:induction false} ClicksKeepOneActive(so: SortObj, clicks: seq<Column>)
    requires AtMostOneActive(so)
    ensures AtMostOneActive(ClickAll(so, clicks))
    ensures clicks != [] ==> (ActiveEntry(ClickAll(so, clicks)).Some? &&
                              ActiveEntry(ClickAll(so, clicks)).value.0 == clicks[|clicks| - 1])
    decreases |clicks|
  {
    if clicks != [] {
      ClickActivates(so, clicks[0]);
      ClicksKeepOneActive(Clicked(so, clicks[0]), clicks[1..]);
      if |clicks| > 1 {
        assert clicks[1..][|clicks[1..]| - 1] == clicks[|clicks| - 1];
      }
    }
  }

  /** The initial counters have no active column. */
  lemma NoSortInactive()
    ensures AtMostOneActive(NoSort) && ActiveEntry(NoSort).None?
  {
  }

  /** `n` clicks in a row on one column add `n` to its counter, so every
      third click brings the column back to the same direction. */
  lemma {:induction false} RepeatedClicks(so: SortObj, col: Column, n: nat)
    requires n > 0
    ensures var r := ClickAll(so, seq(n, _ => col));
            r.Get(col) == so.Get(col) + n && forall other :: other != col ==> r.Get(other) == 0
    decreases n
  {
    var clicks := seq(n, _ => col);
    if n > 1 {
      RepeatedClicks(Clicked(so, col), col, n - 1);
      assert clicks[1..] == seq(n - 1, _ => col);
    }
  }

  // ---------------------------------------------------------------------
  // Direction and icons

  /** The header icon: `fa-sort`, `fa-sort-up` and `fa-sort-down`. */
  datatype Icon = Icon(faSort: bool, faSortUp: bool, faSortDown: bool)

  /** The icon classes for a column whose counter is `counter`. */
  function IconOf(counter: nat): (r: Icon)
    ensures r.faSort || r.faSortUp || r.faSortDown
    ensures !(r.faSort && r.faSortUp) && !(r.faSort && r.faSortDown) && !(r.faSortUp && r.faSortDown)
  {
    Icon(counter % 3 == 0, counter % 3 == 1, counter % 3 == 2)
  }

  /** A header showing the neutral icon leaves the rows unsorted; an arrow
      up or down on the active column means the rows are sorted in that
      direction. */
  lemma IconMatchesOrder(fx: Fixtures, localeCompare: (string, string) -> int, arr: seq<Product>, column: Field, state: nat)
    requires Lawful(Comparator(fx, localeCompare, column, state))
    requires AllResolve(Comparator(fx, localeCompare, column, state), arr)
    ensures var c, r := Comparator(fx, localeCompare, column, state), SortColumn(fx, localeCompare, arr, column, state);
            && AllResolve(c, r)
            && (IconOf(state).faSort ==> r == arr)
            && (IconOf(state).faSortUp ==> forall i, j :: 0 <= i < j < |r| ==> Compare(c.(state := 1), r[i], r[j]) <= 0)
            && (IconOf(state).faSortDown ==> forall i, j :: 0 <= i < j < |r| ==> Compare(c.(state := 1), r[i], r[j]) >= 0)
  {
    var c := Comparator(fx, localeCompare, column, state);
    var r := SortColumn(fx, localeCompare, arr, column, state);
    SortColumnOrdered(fx, localeCompare, arr, column, state);
    forall i, j | 0 <= i < j < |r|
      ensures IconOf(state).faSortUp ==> Compare(c.(state := 1), r[i], r[j]) <= 0
      ensures IconOf(state).faSortDown ==> Compare(c.(state := 1), r[i], r[j]) >= 0
    {
      assert Compare(c, r[i], r[j]) <= 0;
    }
  }

  // ---------------------------------------------------------------------
  // The displayed rows

  /** What the effect needs of the rows: the active column's lookups succeed. */
  predicate ViewDefined(fx: Fixtures, localeCompare: (string, string) -> int, products: seq<Product>, so: SortObj) {
    match ActiveEntry(so)
    case None => true
    case Some(e) => Comparable(Comparator(fx, localeCompare, ColumnMap(e.0), e.1), products)
  }

  /** The rows the effect displays: a copy of `products` when no counter is
      active, otherwise `products` sorted on the first active column. */
  function View(fx: Fixtures, localeCompare: (string, string) -> int, products: seq<Product>, so: SortObj): (r: seq<Product>)
    requires ViewDefined(fx, localeCompare, products, so)
    ensures multiset(r) == multiset(products)
    ensures (forall col :: so.Get(col) % 3 == 0) ==> r == products
  {
    match ActiveEntry(so)
    case None => products
    case Some(e) => SortColumn(fx, localeCompare, products, ColumnMap(e.0), e.1)
  }

  /** Rows whose category and owner exist can be displayed under any counters. */
  lemma ConsistentViewDefined(fx: Fixtures, localeCompare: (string, string) -> int, products: seq<Product>, so: SortObj)
    requires Consistent(fx, products)
    ensures ViewDefined(fx, localeCompare, products, so)
  {
  }

  /** What a click handler stores directly is what the effect recomputes
      from the new counters. */
  lemma ViewAfterClick(fx: Fixtures, localeCompare: (string, string) -> int, products: seq<Product>, so: SortObj, col: Column)
    requires Comparable(Comparator(fx, localeCompare, ColumnMap(col), so.Get(col) + 1), products)
    ensures ViewDefined(fx, localeCompare, products, Clicked(so, col))
    ensures View(fx, localeCompare, products, Clicked(so, col))
         == SortColumn(fx, localeCompare, products, ColumnMap(col), so.Get(col) + 1)
  {
    ClickActivates(so, col);
  }

  /** The component: the rows and counters it receives and the rows it
      displays. */
  class TableView {
    const fx: Fixtures
    const localeCompare: (string, string) -> int
    var products: seq<Product>
    var sortObj: SortObj
    var sortedProducts: seq<Product>

    ghost predicate Valid()
      reads this
    {
      && ViewDefined(fx, localeCompare, products, sortObj)
      && sortedProducts == View(fx, localeCompare, products, sortObj)
    }

    /** Mounting: the state starts as a copy of `products`, then the effect runs. */
    constructor (fx: Fixtures, localeCompare: (string, string) -> int, products: seq<Product>, sortObj: SortObj)
      requires ViewDefined(fx, localeCompare, products, sortObj)
      ensures this.fx == fx && this.localeCompare == localeCompare
      ensures this.products == products && this.sortObj == sortObj
      ensures Valid()
    {
      this.fx := fx;
      this.localeCompare := localeCompare;
      this.products := products;
      this.sortObj := sortObj;
      this.sortedProducts := products;
      new;
      Effect();
    }

    /** The effect: find the first active counter and sort on its column. */
    method Effect()
      requires ViewDefined(fx, localeCompare, products, sortObj)
      modifies this
      ensures products == old(products) && sortObj == old(sortObj)
      ensures Valid()
    {
      var activeSortEntry := ActiveEntry(sortObj);
      if activeSortEntry.None? {
        sortedProducts := products;
        return;
      }
      var (columnKey, state) := activeSortEntry.value;
      var column := ColumnMap(columnKey);
      sortedProducts := SortColumn(fx, localeCompare, products, column, state);
    }

    /** New rows or counters from the parent: the effect runs again. */
    method Receive(products: seq<Product>, sortObj: SortObj)
      requires ViewDefined(fx, localeCompare, products, sortObj)
      modifies this
      ensures this.products == products && this.sortObj == sortObj
      ensures Valid()
    {
      this.products := products;
      this.sortObj := sortObj;
      Effect();
    }

    /** A click on a header: the handler bumps that counter, zeroes the
        others and stores the rows sorted on the clicked column; the new
        counters then reach the effect, which computes the same rows. */
    method Click(col: Column)
      requires Comparable(Comparator(fx, localeCompare, ColumnMap(col), sortObj.Get(col) + 1), products)
      modifies this
      ensures products == old(products)
      ensures sortObj == Clicked(old(sortObj), col)
      ensures sortedProducts == SortColumn(fx, localeCompare, products, ColumnMap(col), old(sortObj).Get(col) + 1)
      ensures Valid()
    {
      var newState := Clicked(sortObj, col);
      sortedProducts := SortColumn(fx, localeCompare, products, ColumnMap(col), newState.Get(col));
      sortObj := newState;
      ViewAfterClick(fx, localeCompare, products, old(sortObj), col);
      Effect();
    }
  }
}
