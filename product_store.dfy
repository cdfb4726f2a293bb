/** The product store: the read-only catalog, the append-only list of
    reviews, and the store operations that compute step by step or change the
    review list. The pure queries it exposes (lookup by id, reviews of a
    product, average rating) are the functions of module Catalog applied to
    `products` and `reviews`. */
module ProductStore {
  import opened Wrappers
  import opened Catalog
  import opened ProductSort

  class CatalogStore {
    const products: seq<Product>
    var reviews: seq<Review>

    constructor (catalog: seq<Product>)
      ensures products == catalog && reviews == []
    {
      products := catalog;
      reviews := [];
    }

    /** getFilteredProducts: a copy of the catalog narrowed by each supplied
        filter in turn, then sorted in place when the sort key is recognised.
        The result holds exactly the matching products; without a recognised
        key it keeps catalog order, with one it is in that key's order. */
    method GetFilteredProducts(filters: Filters, sort: Option<string>) returns (result: seq<Product>)
      ensures multiset(result) == multiset(Filtered(products, filters))
      ensures ParseSortKey(sort).None? ==> result == Filtered(products, filters)
      ensures ParseSortKey(sort).Some? ==> Sorted(ParseSortKey(sort).value, Ratings(reviews), result)
    {
      var filtered := Narrow(products, filters);
      var key := ParseSortKey(sort);
      if key.Some? {
        var a := new Product[|filtered|](i requires 0 <= i < |filtered| => filtered[i]);
        assert a[..] == filtered;
        SortInPlace(a, key.value, Ratings(reviews));
        filtered := a[..];
      }
      result := filtered;
    }

    /** The four `.filter` steps, each applied only when its filter is supplied. */
    static method Narrow(catalog: seq<Product>, filters: Filters) returns (filtered: seq<Product>)
      ensures filtered == Filtered(catalog, filters)
    {
      filtered := catalog;
      ghost var applied: seq<Criterion> := [];
      KeepNothing(catalog);
      if Supplied(filters.category) {
        var c := InCategory(filters.category.value);
        SelectAfterKeep(catalog, applied, c);
        filtered, applied := Select(filtered, c), applied + [c];
      }
      assert filtered == Keep(catalog, applied);
      ghost var a1 := applied;
      if filters.minPrice.Some? {
        var c := AtLeast(filters.minPrice.value);
        SelectAfterKeep(catalog, applied, c);
        filtered, applied := Select(filtered, c), applied + [c];
      }
      assert filtered == Keep(catalog, applied);
      ghost var a2 := applied;
      if filters.maxPrice.Some? {
        var c := AtMost(filters.maxPrice.value);
        SelectAfterKeep(catalog, applied, c);
        filtered, applied := Select(filtered, c), applied + [c];
      }
      assert filtered == Keep(catalog, applied);
      ghost var a3 := applied;
      if Supplied(filters.search) {
        var c := Mentions(filters.search.value);
        SelectAfterKeep(catalog, applied, c);
        filtered, applied := Select(filtered, c), applied + [c];
      }
      assert a1 == (if Supplied(filters.category) then [InCategory(filters.category.value)] else []);
      assert a2 == a1 + (if filters.minPrice.Some? then [AtLeast(filters.minPrice.value)] else []);
      assert a3 == a2 + (if filters.maxPrice.Some? then [AtMost(filters.maxPrice.value)] else []);
      assert applied == a3 + (if Supplied(filters.search) then [Mentions(filters.search.value)] else []);
      assert applied == Criteria(filters);
    }

    /** categories: each category once, in order of first appearance in the
        catalog (the order in which a JavaScript Set yields its members). */
    method Categories() returns (cats: seq<string>)
      ensures forall i, j | 0 <= i < j < |cats| :: cats[i] != cats[j]
      ensures forall c :: c in cats <==> exists k | 0 <= k < |products| :: products[k].category == c
      ensures forall i, j | 0 <= i < j < |cats| ::
        IndexOfCategory(products, cats[i]) < IndexOfCategory(products, cats[j])
    {
      cats := [];
      for k := 0 to |products|
        invariant cats == FirstCategories(products[..k])
      {
        var c := products[k].category;
        assert products[..k + 1][..k] == products[..k];
        if c !in cats {
          cats := cats + [c];
        }
      }
      assert products[..|products|] == products;
      FirstCategoriesMembers(products);
      FirstCategoriesOrdered(products);
      forall c | c in cats ensures exists k | 0 <= k < |products| :: products[k].category == c {
        assert products[IndexOfCategory(products, c)].category == c;
      }
      forall k | 0 <= k < |products| ensures products[k].category in cats {
        IndexOfCategoryFirst(products, products[k].category, k);
      }
    }

    /** addReview: appends one review carrying the generated id (count + 1)
        unless the reviewer supplied an id, and the timestamp `now`. The
        reviews of that product grow by exactly this review; every other
        product's reviews are unchanged. */
    method AddReview(input: ReviewInput, now: string)
      modifies this
      ensures reviews == old(reviews) + [NewReview(|old(reviews)|, input, now)]
      ensures ReviewsFor(reviews, input.productId)
           == ReviewsFor(old(reviews), input.productId) + [NewReview(|old(reviews)|, input, now)]
      ensures forall pid | pid != input.productId :: ReviewsFor(reviews, pid) == ReviewsFor(old(reviews), pid)
    {
      var r := NewReview(|reviews|, input, now);
      ghost var before := reviews;
      reviews := reviews + [r];
      forall pid ensures ReviewsFor(reviews, pid) == ReviewsFor(before, pid) + (if pid == input.productId then [r] else []) {
        ReviewsForAppend(before, r, pid);
      }
    }
  }

  // ---------------------------------------------------------------------
  // A worked scenario

  function Priced(id: int, price: int): Product {
    Product(id, "", price, "", "", true, [], [])
  }

  /** The three products of the scenario below, at 10.00, 20.00 and 30.00. */
  const ScenarioCatalog := [Priced(1, 1000), Priced(2, 2000), Priced(3, 3000)]

  /** A minimum price of 15.00 keeps the second and the third, in catalog order. */
  lemma MinPriceFilterScenario()
    ensures Filtered(ScenarioCatalog, Filters(None, Some(1500), None, None)) == [Priced(2, 2000), Priced(3, 3000)]
  {
    var p1, p2, p3 := Priced(1, 1000), Priced(2, 2000), Priced(3, 3000);
    var cs := [AtLeast(1500)];
    assert Criteria(Filters(None, Some(1500), None, None)) == cs;
    assert !Satisfies(p1, cs[0]);
    assert [p1, p2, p3][1..] == [p2, p3] && [p2, p3][1..] == [p3] && [p3][1..] == [];
    assert Keep([p3], cs) == [p3];
    assert Keep([p2, p3], cs) == [p2, p3];
  }

  /** The two products the filter keeps, sorted 'price-desc', can only be in
      one order: the dearer first. */
  lemma ScenarioDescendingOrder(result: seq<Product>)
    requires multiset(result) == multiset([Priced(2, 2000), Priced(3, 3000)])
    requires Sorted(PriceDesc, Ratings([]), result)
    ensures result == [Priced(3, 3000), Priced(2, 2000)]
  {
    var expected := [Priced(3, 3000), Priced(2, 2000)];
    assert multiset(result) == multiset(expected);
    PriceDescNonIncreasing(Ratings([]), result);
    assert NonIncreasingPrices(result);
    assert DecreasingPrices(expected);
    DescendingUnique(result, expected);
  }

  /** Filtered by a minimum price of 15.00 and sorted 'price-desc', a fresh
      store over the scenario catalog returns the third product, then the
      second; the contract of GetFilteredProducts alone fixes this result. */
  method MinPriceDescendingScenario() returns (result: seq<Product>)
    ensures result == [Priced(3, 3000), Priced(2, 2000)]
  {
    var store := new CatalogStore(ScenarioCatalog);
    result := store.GetFilteredProducts(Filters(None, Some(1500), None, None), Some("price-desc"));
    MinPriceFilterScenario();
    ScenarioDescendingOrder(result);
  }
}
