/** Worked examples on a two-product catalogue: Milk (Dairy, owned by
    Alice) and Bread (Bakery, owned by Bob), with code-point order standing
    in for `localeCompare`. */
module Scenarios {
  import opened Catalog
  import opened Strings
  import opened Table
  import opened App
  import opened Seqs
  import StableSort

  const Alice := User(1, "Alice", Female)
  const Bob := User(2, "Bob", Male)
  const Dairy := Category(1, "Dairy", "D", 1)
  const Bakery := Category(2, "Bakery", "B", 2)
  const Milk := Product(1, "Milk", 1)
  const Bread := Product(2, "Bread", 2)

  const Shop := Fixtures([Alice, Bob], [Dairy, Bakery])
  const Products := [Milk, Bread]

  /** `t` is `s` lower-cased. */
  lemma LowerOf(s: string, t: string)
    requires |s| == |t| && forall i :: 0 <= i < |s| ==> LowerChar(s[i]) == t[i]
    ensures Lower(s) == t
  {
  }

  /** A needle whose first letter never occurs in the text is not in it. */
  lemma Absent(hay: string, needle: string)
    requires needle != [] && forall i :: 0 <= i < |hay| ==> hay[i] != needle[0]
    ensures !Contains(hay, needle)
  {
    forall i ensures !OccursAt(hay, needle, i) {
      if 0 <= i <= |hay| - |needle| {
        assert hay[i..i + |needle|][0] == hay[i];
      }
    }
  }

  lemma ShopConsistent()
    ensures Consistent(Shop, Products)
  {
    assert FindCategory(Shop.categories, 1) == Some(Dairy);
    assert FindCategory(Shop.categories, 2) == Some(Bakery);
    assert FindUser(Shop.users, 1) == Some(Alice);
    assert FindUser(Shop.users, 2) == Some(Bob);
  }

  /** Searching "mi" keeps only Milk. */
  lemma SearchMi()
    ensures FilterByProductName(Products, "mi") == [Milk]
  {
    LowerOf("mi", "mi");
    LowerOf("Milk", "milk");
    LowerOf("Bread", "bread");
    assert OccursAt("milk", "mi", 0);
    Absent("bread", "mi");
    assert Products[1..] == [Bread] && [Bread][1..] == [];
  }

  /** Selecting Bob keeps only Bread. */
  lemma UserBob()
    ensures Consistent(Shop, Products)
    ensures FilterByUser(Shop, Products, 2) == [Bread]
  {
    ShopConsistent();
  }

  /** Selecting the Dairy category keeps only Milk. */
  lemma CategoryDairy()
    ensures forall p :: p in Products ==> CategoryResolves(Shop, p)
    ensures FilterByCategory(Shop, Products, "Dairy") == [Milk]
  {
    ShopConsistent();
  }

  /** A search nothing matches leaves no products. */
  lemma SearchNothing()
    ensures FilterByProductName(Products, "zzz") == []
    ensures Select(Products, Criteria(Shop, 0, "All", "zzz")) == []
  {
    LowerOf("zzz", "zzz");
    LowerOf("Milk", "milk");
    LowerOf("Bread", "bread");
    Absent("milk", "zzz");
    Absent("bread", "zzz");
    assert Products[1..] == [Bread] && [Bread][1..] == [];
  }

  /** By the Product column, Milk comes after Bread. */
  lemma MilkAfterBread(state: nat)
    ensures var c := Comparator(Shop, CodePointCompare, NameField, state);
            state % 3 == 1 ==> Compare(c, Milk, Bread) > 0
    ensures var c := Comparator(Shop, CodePointCompare, NameField, state);
            state % 3 == 2 ==> Compare(c, Milk, Bread) < 0
  {
    LowerOf("Milk", "milk");
    LowerOf("Bread", "bread");
    assert CodePointCompare("milk", "bread") == 1;
  }

  /** Sorting two comparable rows on a column swaps them only when the
      first compares after the second. */
  lemma SortPair(fx: Fixtures, localeCompare: (string, string) -> int, column: Field, state: nat, x: Product, y: Product)
    requires state % 3 != 0
    requires Resolves(Comparator(fx, localeCompare, column, state), x)
    requires Resolves(Comparator(fx, localeCompare, column, state), y)
    ensures var c := Comparator(fx, localeCompare, column, state);
            SortColumn(fx, localeCompare, [x, y], column, state) == if Compare(c, x, y) <= 0 then [x, y] else [y, x]
  {
    StableSort.SortTwo(Cmp(Comparator(fx, localeCompare, column, state)), x, y);
  }

  /** The first click on Product sorts ascending: Bread, then Milk. */
  lemma ProductFirstClick()
    ensures SortColumn(Shop, CodePointCompare, Products, NameField, 1) == [Bread, Milk]
  {
    MilkAfterBread(1);
    SortPair(Shop, CodePointCompare, NameField, 1, Milk, Bread);
  }

  /** The second click sorts descending: Milk, then Bread. */
  lemma ProductSecondClick()
    ensures SortColumn(Shop, CodePointCompare, Products, NameField, 2) == [Milk, Bread]
  {
    MilkAfterBread(2);
    SortPair(Shop, CodePointCompare, NameField, 2, Milk, Bread);
  }

  /** The third click gives the input order back. */
  lemma ProductThirdClick()
    ensures SortColumn(Shop, CodePointCompare, Products, NameField, 3) == Products
  {
  }

  const Apples := Category(3, "apples", "A", 1)
  const Bananas := Category(4, "Bananas", "B", 2)
  const Fruit := Fixtures([Alice, Bob], [Apples, Bananas])
  const Pear := Product(3, "Pear", 3)
  const Plantain := Product(4, "Plantain", 4)

  /** The Category column compares titles as stored: under code-point
      order, "Bananas" sorts before "apples" because capitals come first. */
  lemma CategorySortIsCaseSensitive()
    ensures SortColumn(Fruit, CodePointCompare, [Pear, Plantain], CategoryIdField, 1) == [Plantain, Pear]
  {
    PearAfterPlantain();
    SortPair(Fruit, CodePointCompare, CategoryIdField, 1, Pear, Plantain);
  }

  /** By the Category column, Pear ("apples") comes after Plantain
      ("Bananas"). */
  lemma PearAfterPlantain()
    ensures var up := Comparator(Fruit, CodePointCompare, CategoryIdField, 1);
            Resolves(up, Pear) && Resolves(up, Plantain) && Compare(up, Pear, Plantain) > 0
  {
    var up := Comparator(Fruit, CodePointCompare, CategoryIdField, 1);
    assert FindCategory(Fruit.categories, 3) == Some(Apples);
    assert FindCategory(Fruit.categories, 4) == Some(Bananas);
    assert TextKey(up, Pear) == "apples" && TextKey(up, Plantain) == "Bananas";
    assert CodePointCompare("apples", "Bananas") == 1;
  }

  /** Lower-cased, the same titles come the other way round. */
  lemma LowerCasedTitlesOrder()
    ensures CodePointCompare(Lower("apples"), Lower("Bananas")) < 0
  {
    LowerOf("apples", "apples");
    LowerOf("Bananas", "bananas");
    assert CodePointCompare("apples", "bananas") == -1;
  }
}
