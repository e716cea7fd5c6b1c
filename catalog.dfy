/** The three fixture tables (users, categories, products) and the lookups
    that join them: product -> category by `categoryId`, category -> user by
    `ownerId`. The lookups behave like `Array.prototype.find`: the first row
    with the wanted id, or nothing. */
module Catalog {

  datatype Option<T> = None | Some(value: T)

  datatype Sex = Male | Female

  datatype User = User(id: int, name: string, sex: Sex)

  datatype Category = Category(id: int, title: string, icon: string, ownerId: int)

  datatype Product = Product(id: int, name: string, categoryId: int)

  /** The read-only users and categories tables. */
  datatype Fixtures = Fixtures(users: seq<User>, categories: seq<Category>)

  /** `categories.find(category => category.id === id)` */
  function FindCategory(categories: seq<Category>, id: int): (r: Option<Category>)
    ensures r.None? <==> forall c :: c in categories ==> c.id != id
    ensures r.Some? ==> r.value.id == id && r.value in categories
  {
    if categories == [] then None
    else if categories[0].id == id then
      Some(categories[0])
    else
      assert categories == [categories[0]] + categories[1..];
      FindCategory(categories[1..], id)
  }

  /** `find` returns the first row with the id. */
  lemma {:induction false} FindCategoryFirst(categories: seq<Category>, id: int, i: int)
    requires 0 <= i < |categories| && categories[i].id == id
    requires forall j :: 0 <= j < i ==> categories[j].id != id
    ensures FindCategory(categories, id) == Some(categories[i])
  {
    if i > 0 {
      FindCategoryFirst(categories[1..], id, i - 1);
    }
  }

  /** `users.find(user => user.id === id)` */
  function FindUser(users: seq<User>, id: int): (r: Option<User>)
    ensures r.None? <==> forall u :: u in users ==> u.id != id
    ensures r.Some? ==> r.value.id == id && r.value in users
  {
    if users == [] then None
    else if users[0].id == id then
      Some(users[0])
    else
      assert users == [users[0]] + users[1..];
      FindUser(users[1..], id)
  }

  /** `find` returns the first row with the id. */
  lemma {:induction false} FindUserFirst(users: seq<User>, id: int, i: int)
    requires 0 <= i < |users| && users[i].id == id
    requires forall j :: 0 <= j < i ==> users[j].id != id
    ensures FindUser(users, id) == Some(users[i])
  {
    if i > 0 {
      FindUserFirst(users[1..], id, i - 1);
    }
  }

  predicate CategoryResolves(fx: Fixtures, p: Product) {
    FindCategory(fx.categories, p.categoryId).Some?
  }

  /** The category a product belongs to. */
  function CategoryOf(fx: Fixtures, p: Product): (c: Category)
    requires CategoryResolves(fx, p)
    ensures c.id == p.categoryId && c in fx.categories
  {
    FindCategory(fx.categories, p.categoryId).value
  }

  predicate OwnerResolves(fx: Fixtures, p: Product) {
    CategoryResolves(fx, p) && FindUser(fx.users, CategoryOf(fx, p).ownerId).Some?
  }

  /** The user who owns a product's category. */
  function OwnerOf(fx: Fixtures, p: Product): (u: User)
    requires OwnerResolves(fx, p)
    ensures u.id == CategoryOf(fx, p).ownerId && u in fx.users
  {
    FindUser(fx.users, CategoryOf(fx, p).ownerId).value
  }

  /** Referential integrity of the fixture data for the listed products:
      every category and every owner they point to exists. */
  ghost predicate Consistent(fx: Fixtures, products: seq<Product>) {
    forall p :: p in products ==> OwnerResolves(fx, p)
  }
}
