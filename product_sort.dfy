/** The sort step of getFilteredProducts: the recognised sort keys, the
    comparator each one selects, and the in-place sort of the filtered copy. */
module ProductSort {
  import opened Wrappers
  import opened Catalog

  datatype SortKey = PriceAsc | PriceDesc | NameAsc | NameDesc | RatingDesc

  /** The string a caller passes to select a key. */
  function KeyName(k: SortKey): string {
    match k
    case PriceAsc => "price-asc"
    case PriceDesc => "price-desc"
    case NameAsc => "name-asc"
    case NameDesc => "name-desc"
    case RatingDesc => "rating-desc"
  }

  /** The `if (sort) switch (sort)` of the source: an absent or empty sort
      string, and any string that is not one of the five cases, selects no
      sort (the switch has no default). */
  function ParseSortKey(sort: Option<string>): (k: Option<SortKey>)
    ensures k.Some? ==> sort == Some(KeyName(k.value))
  {
    if sort.None? then None
    else if sort.value == "price-asc" then Some(PriceAsc)
    else if sort.value == "price-desc" then Some(PriceDesc)
    else if sort.value == "name-asc" then Some(NameAsc)
    else if sort.value == "name-desc" then Some(NameDesc)
    else if sort.value == "rating-desc" then Some(RatingDesc)
    else None
  }

  /** Every key is recognised by its own name. */
  lemma ParseKeyName(k: SortKey)
    ensures ParseSortKey(Some(KeyName(k))) == Some(k)
  {}

  // ---------------------------------------------------------------------
  // Name order

  /** Lexicographic order on character codes, standing in for `localeCompare(...) <= 0`. */
  predicate NameLeq(x: string, y: string) {
    if x == [] then true
    else if y == [] then false
    else if x[0] != y[0] then x[0] < y[0]
    else NameLeq(x[1..], y[1..])
  }

  lemma {:induction false} NameLeqTotal(x: string, y: string)
    ensures NameLeq(x, y) || NameLeq(y, x)
  {
    if x != [] && y != [] && x[0] == y[0] {
      NameLeqTotal(x[1..], y[1..]);
    }
  }

  lemma {:induction false} NameLeqTransitive(x: string, y: string, z: string)
    requires NameLeq(x, y) && NameLeq(y, z)
    ensures NameLeq(x, z)
  {
    if x != [] && y != [] && z != [] && x[0] == y[0] && y[0] == z[0] {
      NameLeqTransitive(x[1..], y[1..], z[1..]);
    }
  }

  // ---------------------------------------------------------------------
  // The comparators

  /** The current average rating of each product id (0 for a product
      without reviews), which the 'rating-desc' comparator ranks by. */
  function Ratings(reviews: seq<Review>): int -> real {
    pid => AverageRating(reviews, pid)
  }

  /** `compare(a, b) <= 0` for the comparator the key selects: `a` may stay
      in front of `b`. `rating` gives each product id's average rating; the
      store passes Ratings(reviews). */
  predicate Before(key: SortKey, rating: int -> real, a: Product, b: Product) {
    match key
    case PriceAsc => a.price <= b.price
    case PriceDesc => b.price <= a.price
    case NameAsc => NameLeq(a.name, b.name)
    case NameDesc => NameLeq(b.name, a.name)
    case RatingDesc => rating(b.id) <= rating(a.id)
  }

  lemma BeforeTotal(key: SortKey, rating: int -> real, a: Product, b: Product)
    ensures Before(key, rating, a, b) || Before(key, rating, b, a)
  {
    if key.NameAsc? || key.NameDesc? {
      NameLeqTotal(a.name, b.name);
    }
  }

  lemma BeforeTransitive(key: SortKey, rating: int -> real, a: Product, b: Product, c: Product)
    requires Before(key, rating, a, b) && Before(key, rating, b, c)
    ensures Before(key, rating, a, c)
  {
    match key
    case NameAsc => NameLeqTransitive(a.name, b.name, c.name);
    case NameDesc => NameLeqTransitive(c.name, b.name, a.name);
    case _ =>
  }

  /** Every neighbouring pair is in comparator order. */
  predicate Sorted(key: SortKey, rating: int -> real, s: seq<Product>) {
    forall i | 0 < i < |s| :: Before(key, rating, s[i - 1], s[i])
  }

  /** A sorted list is in comparator order pair by pair, not only between neighbours. */
  lemma {:induction false} SortedPairwise(key: SortKey, rating: int -> real, s: seq<Product>)
    requires Sorted(key, rating, s)
    ensures forall i, j | 0 <= i < j < |s| :: Before(key, rating, s[i], s[j])
  {
    if |s| > 1 {
      var t := s[1..];
      assert Sorted(key, rating, t) by {
        forall i | 0 < i < |t| ensures Before(key, rating, t[i - 1], t[i]) {
          assert t[i - 1] == s[i] && t[i] == s[i + 1];
        }
      }
      SortedPairwise(key, rating, t);
      forall i, j | 0 <= i < j < |s| ensures Before(key, rating, s[i], s[j]) {
        if i > 0 {
          assert s[i] == t[i - 1] && s[j] == t[j - 1];
        } else if j > 1 {
          assert s[1] == t[0] && s[j] == t[j - 1];
          BeforeTransitive(key, rating, s[0], s[1], s[j]);
        }
      }
    }
  }

  /** 'price-asc' leaves prices non-decreasing. */
  lemma PriceAscNonDecreasing(rating: int -> real, s: seq<Product>)
    requires Sorted(PriceAsc, rating, s)
    ensures forall i, j | 0 <= i <= j < |s| :: s[i].price <= s[j].price
  {
    SortedPairwise(PriceAsc, rating, s);
  }

  /** 'price-desc' leaves prices non-increasing. */
  lemma PriceDescNonIncreasing(rating: int -> real, s: seq<Product>)
    requires Sorted(PriceDesc, rating, s)
    ensures forall i, j | 0 <= i <= j < |s| :: s[i].price >= s[j].price
  {
    SortedPairwise(PriceDesc, rating, s);
  }

  /** 'rating-desc' leaves the products' current average ratings non-increasing. */
  lemma RatingDescNonIncreasing(reviews: seq<Review>, s: seq<Product>)
    requires Sorted(RatingDesc, Ratings(reviews), s)
    ensures forall i, j | 0 <= i <= j < |s| ::
      AverageRating(reviews, s[i].id) >= AverageRating(reviews, s[j].id)
  {
    SortedPairwise(RatingDesc, Ratings(reviews), s);
  }

  /** The list read back to front. */
  function Reverse(s: seq<Product>): (r: seq<Product>)
    ensures |r| == |s|
    ensures forall i | 0 <= i < |s| :: r[i] == s[|s| - 1 - i]
  {
    if s == [] then [] else Reverse(s[1..]) + [s[0]]
  }

  /** Reversal keeps the same products. */
  lemma {:induction false} ReverseSameProducts(s: seq<Product>)
    ensures multiset(Reverse(s)) == multiset(s)
  {
    if s != [] {
      ReverseSameProducts(s[1..]);
      assert s == [s[0]] + s[1..];
    }
  }

  predicate NonIncreasingPrices(s: seq<Product>) {
    forall i, j | 0 <= i < j < |s| :: s[i].price >= s[j].price
  }

  predicate DecreasingPrices(s: seq<Product>) {
    forall i, j | 0 <= i < j < |s| :: s[i].price > s[j].price
  }

  lemma MultisetTail(s: seq<Product>)
    requires s != []
    ensures multiset(s[1..]) == multiset(s) - multiset{s[0]}
  {
    assert s == [s[0]] + s[1..];
  }

  /** The most expensive product leads both lists. */
  lemma SameFirst(t: seq<Product>, u: seq<Product>)
    requires NonIncreasingPrices(t) && DecreasingPrices(u) && multiset(t) == multiset(u)
    requires t != []
    ensures u != [] && t[0] == u[0]
  {
    assert t[0] in multiset(u);
    var k :| 0 <= k < |u| && u[k] == t[0];
    assert u[0] in multiset(t);
    var m :| 0 <= m < |t| && t[m] == u[0];
    assert k == 0;
  }

  /** Two lists holding the same products, one in non-increasing price order
      and one in strictly decreasing price order, are the same list. */
  lemma {:induction false} DescendingUnique(t: seq<Product>, u: seq<Product>)
    requires NonIncreasingPrices(t) && DecreasingPrices(u) && multiset(t) == multiset(u)
    ensures t == u
  {
    if t == [] {
      assert |u| == |multiset(u)| == 0;
    } else {
      SameFirst(t, u);
      MultisetTail(t);
      MultisetTail(u);
      var t', u' := t[1..], u[1..];
      assert NonIncreasingPrices(t') by {
        forall i, j | 0 <= i < j < |t'| ensures t'[i].price >= t'[j].price {
          assert t'[i] == t[i + 1] && t'[j] == t[j + 1];
        }
      }
      assert DecreasingPrices(u') by {
        forall i, j | 0 <= i < j < |u'| ensures u'[i].price > u'[j].price {
          assert u'[i] == u[i + 1] && u'[j] == u[j + 1];
        }
      }
      DescendingUnique(t', u');
      assert t == [t[0]] + t' && u == [u[0]] + u';
    }
  }

  /** With distinct prices, sorting by 'price-desc' gives the 'price-asc'
      order read back to front. */
  lemma AscendingReversedIsDescending(rating: int -> real, s: seq<Product>, t: seq<Product>)
    requires Sorted(PriceAsc, rating, s) && Sorted(PriceDesc, rating, t)
    requires multiset(s) == multiset(t)
    requires forall i, j | 0 <= i < j < |s| :: s[i].price != s[j].price
    ensures t == Reverse(s)
  {
    PriceAscNonDecreasing(rating, s);
    PriceDescNonIncreasing(rating, t);
    var u := Reverse(s);
    assert NonIncreasingPrices(t);
    assert DecreasingPrices(u) by {
      forall i, j | 0 <= i < j < |u| ensures u[i].price > u[j].price {
        assert u[i] == s[|s| - 1 - i] && u[j] == s[|s| - 1 - j];
      }
    }
    ReverseSameProducts(s);
    DescendingUnique(t, u);
  }

  // ---------------------------------------------------------------------
  // The in-place sort

  /** `filteredProducts.sort(comparator)` on the filtered copy: afterwards the
      array is in comparator order and holds the same products as before. */
  method SortInPlace(a: array<Product>, key: SortKey, rating: int -> real)
    modifies a
    ensures Sorted(key, rating, a[..])
    ensures multiset(a[..]) == old(multiset(a[..]))
  {
    for i := 0 to a.Length
      invariant Sorted(key, rating, a[..i])
      invariant multiset(a[..]) == old(multiset(a[..]))
    {
      SinkLast(a, i, key, rating);
    }
    assert a[..a.Length] == a[..];
  }

  /** One insertion step: moves a[i] left past every element it must precede,
      so that the sorted prefix grows by one. */
  method SinkLast(a: array<Product>, i: int, key: SortKey, rating: int -> real)
    requires 0 <= i < a.Length
    requires Sorted(key, rating, a[..i])
    modifies a
    ensures Sorted(key, rating, a[..i + 1])
    ensures multiset(a[..]) == old(multiset(a[..]))
  {
    var j := i;
    SortedButStart(key, rating, a[..], i);
    while j > 0 && !Before(key, rating, a[j - 1], a[j])
      invariant 0 <= j <= i
      invariant multiset(a[..]) == old(multiset(a[..]))
      invariant SortedBut(key, rating, a[..], i, j)
    {
      ghost var s := a[..];
      SwapRestores(key, rating, s, i, j);
      SwapDown(a, j);
      assert a[..] == s[j - 1 := s[j]][j := s[j - 1]];
      j := j - 1;
    }
    SortedButDone(key, rating, a[..], i, j);
  }

  /** The first i + 1 elements are in order except, possibly, at position j,
      and the element at j may follow the one before it. */
  predicate SortedBut(key: SortKey, rating: int -> real, s: seq<Product>, i: int, j: int)
    requires 0 <= j <= i < |s|
  {
    && (forall k | 0 < k <= i && k != j :: Before(key, rating, s[k - 1], s[k]))
    && (0 < j < i ==> Before(key, rating, s[j - 1], s[j + 1]))
  }

  /** A sorted prefix of length i is sorted but at i. */
  lemma SortedButStart(key: SortKey, rating: int -> real, s: seq<Product>, i: int)
    requires 0 <= i < |s| && Sorted(key, rating, s[..i])
    ensures SortedBut(key, rating, s, i, i)
  {
    forall k | 0 < k < i ensures Before(key, rating, s[k - 1], s[k]) {
      assert s[..i][k - 1] == s[k - 1] && s[..i][k] == s[k];
    }
  }

  /** Once the element at j follows its neighbour (or j is 0), the first
      i + 1 elements are sorted. */
  lemma SortedButDone(key: SortKey, rating: int -> real, s: seq<Product>, i: int, j: int)
    requires 0 <= j <= i < |s| && SortedBut(key, rating, s, i, j)
    requires j == 0 || Before(key, rating, s[j - 1], s[j])
    ensures Sorted(key, rating, s[..i + 1])
  {
    var t := s[..i + 1];
    forall k | 0 < k < |t| ensures Before(key, rating, t[k - 1], t[k]) {
      assert t[k - 1] == s[k - 1] && t[k] == s[k];
    }
  }

  /** Exchanging an out-of-order pair at j moves the exception to j - 1. */
  lemma SwapRestores(key: SortKey, rating: int -> real, s: seq<Product>, i: int, j: int)
    requires 0 < j <= i < |s|
    requires SortedBut(key, rating, s, i, j) && !Before(key, rating, s[j - 1], s[j])
    ensures SortedBut(key, rating, s[j - 1 := s[j]][j := s[j - 1]], i, j - 1)
  {
    BeforeTotal(key, rating, s[j - 1], s[j]);
  }

  /** Exchanges a[j - 1] and a[j]. */
  method SwapDown(a: array<Product>, j: int)
    requires 0 < j < a.Length
    modifies a
    ensures a[j - 1] == old(a[j]) && a[j] == old(a[j - 1])
    ensures forall k | 0 <= k < a.Length && k != j - 1 && k != j :: a[k] == old(a[k])
    ensures multiset(a[..]) == old(multiset(a[..]))
  {
    a[j - 1], a[j] := a[j], a[j - 1];
  }
}
