/** The shop page's product list: a category filter, then one of four orderings on a copy. */
module Shop {
  import opened Catalog
  import opened Sorting

  datatype CategoryFilter = All | Only(category: Category)

  datatype SortKey = Default | PriceAsc | PriceDesc | NameAsc

  /** Code-point lexicographic order on names, standing in for `localeCompare`. */
  predicate LexLeq(a: string, b: string) {
    a == [] || (b != [] && (a[0] < b[0] || (a[0] == b[0] && LexLeq(a[1..], b[1..]))))
  }

  lemma {:induction false} LexLeqTotal(a: string, b: string)
    ensures LexLeq(a, b) || LexLeq(b, a)
  {
    if a != [] && b != [] && a[0] == b[0] { LexLeqTotal(a[1..], b[1..]); }
  }

  lemma {:induction false} LexLeqTransitive(a: string, b: string, c: string)
    requires LexLeq(a, b) && LexLeq(b, c)
    ensures LexLeq(a, c)
  {
    if a != [] && b != [] && c != [] && a[0] == b[0] && b[0] == c[0] {
      LexLeqTransitive(a[1..], b[1..], c[1..]);
    }
  }

  /** The comparator of each non-default sort key, as "may come before". */
  function Order(key: SortKey): (Product, Product) -> bool {
    match key
    case PriceDesc => (a: Product, b: Product) => a.price >= b.price
    case NameAsc => (a: Product, b: Product) => LexLeq(a.name, b.name)
    case _ => (a: Product, b: Product) => a.price <= b.price
  }

  lemma OrderIsTotalPreorder(key: SortKey)
    ensures IsTotalPreorder(Order(key))
  {
    if key == NameAsc {
      forall a: Product, b: Product ensures Order(key)(a, b) || Order(key)(b, a) {
        LexLeqTotal(a.name, b.name);
      }
      forall a: Product, b: Product, c: Product | Order(key)(a, b) && Order(key)(b, c)
        ensures Order(key)(a, c)
      {
        LexLeqTransitive(a.name, b.name, c.name);
      }
    }
  }

  /** `category === "all" ? products : products.filter((p) => p.category === category)`. */
  function FilterByCategory(cat: seq<Product>, category: CategoryFilter): seq<Product> {
    match category
    case All => cat
    case Only(k) => Filter(cat, (p: Product) => p.category == k)
  }

  /** The `filtered` memo: the category filter, then the chosen sort on a fresh copy. */
  function Shown(cat: seq<Product>, category: CategoryFilter, sort: SortKey): seq<Product> {
    var list := FilterByCategory(cat, category);
    if sort == Default then list else SortBy(list, Order(sort))
  }

  /** The number in "Showing N products". */
  function ShowingCount(cat: seq<Product>, category: CategoryFilter, sort: SortKey): nat {
    |Shown(cat, category, sort)|
  }

  /** "all" keeps the catalog; a category keeps exactly its products, in catalog order. */
  lemma FilterByCategoryContents(cat: seq<Product>, category: CategoryFilter)
    ensures category.All? ==> FilterByCategory(cat, category) == cat
    ensures category.Only? ==>
              && IsSubseq(FilterByCategory(cat, category), cat)
              && forall p :: p in FilterByCategory(cat, category) <==> p in cat && p.category == category.category
  {
    if category.Only? {
      var k := category.category;
      FilterSubseq(cat, (p: Product) => p.category == k);
    }
  }

  /** The default sort shows the filtered list as it is. */
  lemma ShownDefault(cat: seq<Product>, category: CategoryFilter)
    ensures Shown(cat, category, Default) == FilterByCategory(cat, category)
  {
  }

  /** The three explicit sorts give a permutation of the filtered list ordered by their comparator:
      non-decreasing price, non-increasing price, names in ascending order. */
  lemma ShownSorted(cat: seq<Product>, category: CategoryFilter, sort: SortKey)
    requires sort != Default
    ensures var r := Shown(cat, category, sort);
            && multiset(r) == multiset(FilterByCategory(cat, category))
            && (sort == PriceAsc ==> forall i, j :: 0 <= i < j < |r| ==> r[i].price <= r[j].price)
            && (sort == PriceDesc ==> forall i, j :: 0 <= i < j < |r| ==> r[i].price >= r[j].price)
            && (sort == NameAsc ==> forall i, j :: 0 <= i < j < |r| ==> LexLeq(r[i].name, r[j].name))
  {
    OrderIsTotalPreorder(sort);
    SortBySorted(FilterByCategory(cat, category), Order(sort));
  }

  /** The count shown is the number of catalog products in the chosen category, whatever the sort. */
  lemma ShowingCountIsCategorySize(cat: seq<Product>, category: CategoryFilter, sort: SortKey)
    ensures ShowingCount(cat, category, sort) == |FilterByCategory(cat, category)|
    ensures category.All? ==> ShowingCount(cat, category, sort) == |cat|
  {
  }
}
