/** The product catalog: the constant product list and the two queries over it. Prices are cents. */
module Catalog {
  import opened Wrappers

  datatype Category = Butter | Dairy | Dressing

  /** A catalog entry; the descriptive texts, colours and tags the pages only display are omitted. */
  datatype Product = Product(
    id: string,
    name: string,
    slug: string,
    price: nat,   // in cents
    category: Category,
    featured: bool)

  const Products: seq<Product> := [
    Product("1", "Classic Butter", "classic-butter", 899, Butter, true),
    Product("2", "Miso Butter", "miso-butter", 1199, Butter, true),
    Product("3", "Herb Butter", "herb-butter", 1099, Butter, true),
    Product("4", "Chimichurri Butter", "chimichurri-butter", 1299, Butter, false),
    Product("5", "Berry Butter", "berry-butter", 1099, Butter, false),
    Product("6", "Cinnamon Butter", "cinnamon-butter", 999, Butter, true),
    Product("7", "Cultured Buttermilk", "cultured-buttermilk", 799, Dairy, true),
    Product("8", "Ranch Dressing", "ranch-dressing", 999, Dressing, false)
  ]

  predicate DistinctIds(cat: seq<Product>) {
    forall i, j :: 0 <= i < j < |cat| ==> cat[i].id != cat[j].id
  }

  predicate DistinctSlugs(cat: seq<Product>) {
    forall i, j :: 0 <= i < j < |cat| ==> cat[i].slug != cat[j].slug
  }

  /** The catalog constant is well formed: ids and slugs are pairwise distinct, every price positive. */
  lemma CatalogWellFormed()
    ensures DistinctIds(Products) && DistinctSlugs(Products)
    ensures forall i :: 0 <= i < |Products| ==> Products[i].price > 0
  {
    CatalogIdsDistinct();
    CatalogSlugsDistinct();
  }

  lemma CatalogIdsDistinct()
    ensures DistinctIds(Products)
  {
  }

  lemma CatalogSlugsDistinct()
    ensures DistinctSlugs(Products)
  {
  }

  function Min(a: int, b: int): int { if a <= b then a else b }
  function Max(a: int, b: int): int { if a >= b then a else b }

  /** `a` is a subsequence of `b` (greedy matching decides it). */
  predicate IsSubseq<T(==)>(a: seq<T>, b: seq<T>)
    decreases |b|
  {
    a == [] || (b != [] && if a[0] == b[0] then IsSubseq(a[1..], b[1..]) else IsSubseq(a, b[1..]))
  }

  /** `Array.prototype.filter`: the elements that satisfy `keep`, in their original order. */
  function Filter(s: seq<Product>, keep: Product -> bool): (r: seq<Product>)
    ensures |r| <= |s|
    ensures forall p :: p in r <==> p in s && keep(p)
  {
    if s == [] then [] else if keep(s[0]) then [s[0]] + Filter(s[1..], keep) else Filter(s[1..], keep)
  }

  /** `s.slice(0, end)` for an integer `end`: a negative end counts back from the end of `s`. */
  function SliceTo<T>(s: seq<T>, end: int): (r: seq<T>)
    ensures |r| <= |s| && r == s[..|r|]
    ensures end >= 0 ==> |r| == Min(end, |s|)
    ensures end < 0 ==> |r| == Max(0, |s| + end)
  {
    if end >= 0 then s[..Min(end, |s|)] else s[..Max(0, |s| + end)]
  }

  /** What the chain relies on from `slice(0, end)`: it never yields more than `end` elements,
      a count of at least the length keeps everything, zero keeps nothing, a second slice to the
      same count changes nothing, a slice of a concatenation takes from the first part before
      the second, and `end = -1` drops the last element. */
  lemma SliceToProperties<T>(s: seq<T>, t: seq<T>, n: nat)
    ensures |SliceTo(s, n)| <= n
    ensures n >= |s| ==> SliceTo(s, n) == s
    ensures SliceTo(s, 0) == []
    ensures SliceTo(SliceTo(s, n), n) == SliceTo(s, n)
    ensures SliceTo(s + t, n) == if n <= |s| then SliceTo(s, n) else s + SliceTo(t, n - |s|)
    ensures s != [] ==> SliceTo(s, -1) == s[..|s| - 1]
    ensures s == [] ==> SliceTo(s, -1) == []
  {
  }

  /** `products.find((p) => p.slug === slug)` over a catalog. */
  function FindBySlug(cat: seq<Product>, slug: string): (r: Option<Product>)
    ensures r.None? <==> forall i :: 0 <= i < |cat| ==> cat[i].slug != slug
    ensures r.Some? ==> exists i :: 0 <= i < |cat| && cat[i] == r.value && r.value.slug == slug
                          && forall k :: 0 <= k < i ==> cat[k].slug != slug
  {
    if cat == [] then None
    else if cat[0].slug == slug then Some(cat[0])
    else
      var r := FindBySlug(cat[1..], slug);
      assert forall i :: 1 <= i < |cat| ==> cat[i] == cat[1..][i - 1];
      r
  }

  function GetProductBySlug(slug: string): Option<Product> {
    FindBySlug(Products, slug)
  }

  /** With distinct slugs the match is the one product carrying that slug. */
  lemma {:induction false} FindBySlugUnique(cat: seq<Product>, i: nat)
    requires DistinctSlugs(cat) && i < |cat|
    ensures FindBySlug(cat, cat[i].slug) == Some(cat[i])
  {
    var r := FindBySlug(cat, cat[i].slug);
    var j :| 0 <= j < |cat| && cat[j] == r.value && r.value.slug == cat[i].slug
             && forall k :: 0 <= k < j ==> cat[k].slug != cat[i].slug;
    assert j == i;
  }

  predicate IsOther(product: Product, p: Product) {
    p.id != product.id
  }

  predicate IsPeer(product: Product, p: Product) {
    p.id != product.id && p.category == product.category
  }

  predicate IsOutsider(product: Product, p: Product) {
    p.id != product.id && p.category != product.category
  }

  /** The same-category pool of `getRelatedProducts`. */
  function Peers(cat: seq<Product>, product: Product): seq<Product> {
    Filter(cat, p => IsPeer(product, p))
  }

  /** The other-category pool of `getRelatedProducts`. */
  function Outsiders(cat: seq<Product>, product: Product): seq<Product> {
    Filter(cat, p => IsOutsider(product, p))
  }

  /** Every catalog product other than `product` (by id). */
  function OthersThan(cat: seq<Product>, product: Product): seq<Product> {
    Filter(cat, p => IsOther(product, p))
  }

  /** `getRelatedProducts(product, count)` over a catalog: same-category products first, then
      products of other categories to fill up, at most `count` in all. */
  function RelatedProducts(cat: seq<Product>, product: Product, count: int): seq<Product> {
    var same := Peers(cat, product);
    var other := Outsiders(cat, product);
    SliceTo(SliceTo(same, count) + SliceTo(other, Max(0, count - |same|)), count)
  }

  function GetRelatedProducts(product: Product, count: int): seq<Product> {
    RelatedProducts(Products, product, count)
  }

  lemma {:induction false} FilterSubseq(s: seq<Product>, keep: Product -> bool)
    ensures IsSubseq(Filter(s, keep), s)
  {
    if s != [] {
      FilterSubseq(s[1..], keep);
      if !keep(s[0]) {
        var r := Filter(s[1..], keep);
        if r != [] { assert r[0] in r && keep(r[0]); }
      }
    }
  }

  lemma {:induction false} SubseqOfPrefix<T>(a: seq<T>, b: seq<T>, n: nat)
    requires IsSubseq(a, b) && n <= |a|
    ensures IsSubseq(a[..n], b)
    decreases |b|
  {
    if n > 0 {
      if a[0] == b[0] {
        SubseqOfPrefix(a[1..], b[1..], n - 1);
        assert a[..n][1..] == a[1..][..n - 1];
      } else {
        SubseqOfPrefix(a, b[1..], n);
      }
    }
  }

  /** A subsequence of a catalog with distinct ids has distinct ids and only catalog products. */
  lemma {:induction false} SubseqDistinct(a: seq<Product>, b: seq<Product>)
    requires IsSubseq(a, b) && DistinctIds(b)
    ensures DistinctIds(a)
    ensures forall p :: p in a ==> p in b
    decreases |b|
  {
    if a != [] {
      assert DistinctIds(b[1..]) by {
        forall i, j | 0 <= i < j < |b[1..]| ensures b[1..][i].id != b[1..][j].id {
          assert b[1..][i] == b[i + 1] && b[1..][j] == b[j + 1];
        }
      }
      if a[0] == b[0] {
        SubseqDistinct(a[1..], b[1..]);
        forall j | 1 <= j < |a| ensures a[0].id != a[j].id {
          assert a[j] in a[1..];
          var k :| 0 <= k < |b[1..]| && b[1..][k] == a[j];
          assert b[k + 1] == a[j];
        }
        assert forall j :: 1 <= j < |a| ==> a[j] == a[1..][j - 1];
        forall p | p in a ensures p in b {
          if p != a[0] { assert p in a[1..]; assert p in b[1..]; }
        }
      } else {
        SubseqDistinct(a, b[1..]);
      }
    }
  }

  /** Counting through a partition: a filter splits into two filters by disjoint conditions. */
  lemma {:induction false} FilterPartition(s: seq<Product>, f: Product -> bool, g: Product -> bool, h: Product -> bool)
    requires forall p :: f(p) <==> g(p) || h(p)
    requires forall p :: !(g(p) && h(p))
    ensures |Filter(s, f)| == |Filter(s, g)| + |Filter(s, h)|
  {
    if s != [] { FilterPartition(s[1..], f, g, h); }
  }

  /** Nothing related is the product itself. */
  lemma RelatedExcludesProduct(cat: seq<Product>, product: Product, count: int)
    ensures forall p :: p in RelatedProducts(cat, product, count) ==> p in cat && p.id != product.id
  {
    var same := Peers(cat, product);
    var other := Outsiders(cat, product);
    var joined := SliceTo(same, count) + SliceTo(other, Max(0, count - |same|));
    var r := RelatedProducts(cat, product, count);
    forall p | p in r ensures p in cat && p.id != product.id {
      assert p in joined;
      if p in SliceTo(same, count) { assert p in same; } else { assert p in other; }
    }
  }

  /** For a non-negative count: the first min(count, #same) same-category products in catalog
      order, then as many other-category products, in catalog order, as fill the count. */
  lemma RelatedShape(cat: seq<Product>, product: Product, count: int)
    requires count >= 0
    ensures var same := Peers(cat, product);
            var other := Outsiders(cat, product);
            var a := Min(count, |same|);
            RelatedProducts(cat, product, count) == same[..a] + other[..Min(count - a, |other|)]
  {
    var same := Peers(cat, product);
    var other := Outsiders(cat, product);
    var a := Min(count, |same|);
    var joined := same[..a] + other[..Min(Max(0, count - |same|), |other|)];
    assert |joined| <= count;
    assert SliceTo(joined, count) == joined;
  }

  /** For a non-negative count the result has min(count, #products with another id) entries. */
  lemma RelatedLength(cat: seq<Product>, product: Product, count: int)
    requires count >= 0
    ensures |RelatedProducts(cat, product, count)| == Min(count, |OthersThan(cat, product)|)
  {
    RelatedShape(cat, product, count);
    FilterPartition(cat, p => IsOther(product, p), p => IsPeer(product, p), p => IsOutsider(product, p));
  }

  /** Enough same-category products leave no room for other categories. */
  lemma RelatedStaysInCategory(cat: seq<Product>, product: Product, count: int)
    requires count >= 0 && |Peers(cat, product)| >= count
    ensures forall p :: p in RelatedProducts(cat, product, count) ==> p.category == product.category
  {
    RelatedShape(cat, product, count);
    var same := Peers(cat, product);
    assert RelatedProducts(cat, product, count) == same[..count];
    forall p | p in same[..count] ensures p.category == product.category {
      assert p in same;
    }
  }

  /** No product appears twice: both pools are subsequences of the catalog and they are disjoint. */
  lemma RelatedDistinct(cat: seq<Product>, product: Product, count: int)
    requires DistinctIds(cat)
    ensures DistinctIds(RelatedProducts(cat, product, count))
  {
    var same := Peers(cat, product);
    var other := Outsiders(cat, product);
    var s1 := SliceTo(same, count);
    var s2 := SliceTo(other, Max(0, count - |same|));
    FilterSubseq(cat, p => IsPeer(product, p));
    FilterSubseq(cat, p => IsOutsider(product, p));
    SubseqOfPrefix(same, cat, |s1|);
    SubseqOfPrefix(other, cat, |s2|);
    SubseqDistinct(s1, cat);
    SubseqDistinct(s2, cat);
    var joined := s1 + s2;
    assert DistinctIds(joined) by {
      forall i, j | 0 <= i < j < |joined| ensures joined[i].id != joined[j].id {
        if j < |s1| {
          assert joined[i] == s1[i] && joined[j] == s1[j];
        } else if i >= |s1| {
          assert joined[i] == s2[i - |s1|] && joined[j] == s2[j - |s1|];
        } else {
          var x, y := joined[i], joined[j];
          assert x == s1[i] && x in same && x in cat;
          assert y == s2[j - |s1|] && y in other && y in cat;
          assert x.category != y.category;
          var ix :| 0 <= ix < |cat| && cat[ix] == x;
          var iy :| 0 <= iy < |cat| && cat[iy] == y;
        }
      }
    }
    var r := RelatedProducts(cat, product, count);
    assert r == joined[..|r|];
    forall i, j | 0 <= i < j < |r| ensures r[i].id != r[j].id {
      assert r[i] == joined[i] && r[j] == joined[j];
    }
  }
}
