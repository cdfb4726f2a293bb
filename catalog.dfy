/** The catalog's records and the pure queries of the product store:
    filtering, lookup by id, and the review aggregates. */
module Catalog {
  import opened Wrappers
  import opened Search

  /** A catalog record. Prices are integer cents. */
  datatype Product = Product(
    id: int,
    name: string,
    price: int,
    description: string,
    category: string,
    inStock: bool,
    images: seq<string>,
    features: seq<string>)

  /** A stored review: the generated id (or the one the reviewer supplied),
      the product it refers to, its rating, the timestamp of insertion and any
      further reviewer-supplied fields, kept verbatim. */
  datatype Review = Review(id: int, productId: int, rating: int, date: string, fields: map<string, string>)

  /** What a reviewer hands to addReview; `id` is present only when the
      reviewer supplied one. */
  datatype ReviewInput = ReviewInput(id: Option<int>, productId: int, rating: int, fields: map<string, string>)

  /** The filter object of getFilteredProducts; an absent key is None. */
  datatype Filters = Filters(category: Option<string>, minPrice: Option<int>, maxPrice: Option<int>, search: Option<string>)

  const NoFilters := Filters(None, None, None, None)

  /** One `.filter` step of getFilteredProducts. */
  datatype Criterion = InCategory(category: string) | AtLeast(minPrice: int) | AtMost(maxPrice: int) | Mentions(text: string)

  // ---------------------------------------------------------------------
  // ASCII case folding and substring search

  predicate IsUpper(c: char) {
    'A' <= c <= 'Z'
  }

  /** The two characters are equal or are the two cases of one ASCII letter. */
  predicate SameLetter(c: char, d: char) {
    || c == d
    || (IsUpper(c) && d as int == c as int + 32)
    || (IsUpper(d) && c as int == d as int + 32)
  }

  /** The lower-case form of an ASCII character: never an upper-case letter,
      and the same letter as the input. */
  function LowerChar(c: char): (d: char)
    ensures !IsUpper(d) && SameLetter(c, d)
  {
    if IsUpper(c) then (c as int + 32) as char else c
  }

  /** Two characters lower-case alike exactly when they differ at most in case. */
  lemma LowerCharAlike(c: char, d: char)
    ensures LowerChar(c) == LowerChar(d) <==> SameLetter(c, d)
  {}

  /** `toLowerCase`, restricted to ASCII letters: the same length, no
      upper-case letter left, and each character the same letter as before. */
  function Lower(s: string): (r: string)
    ensures |r| == |s|
    ensures forall i | 0 <= i < |r| :: !IsUpper(r[i]) && SameLetter(s[i], r[i])
  {
    seq(|s|, i requires 0 <= i < |s| => LowerChar(s[i]))
  }

  /** Two strings differ at most in the case of their letters. */
  predicate SameIgnoringCase(s: string, t: string) {
    |s| == |t| && forall i | 0 <= i < |s| :: SameLetter(s[i], t[i])
  }

  /** Lower-casing identifies exactly the strings that differ only in case. */
  lemma LowerAlike(s: string, t: string)
    ensures Lower(s) == Lower(t) <==> SameIgnoringCase(s, t)
  {
    if SameIgnoringCase(s, t) {
      forall i | 0 <= i < |s| ensures Lower(s)[i] == Lower(t)[i] {
        LowerCharAlike(s[i], t[i]);
      }
    }
    if Lower(s) == Lower(t) {
      forall i | 0 <= i < |s| ensures SameLetter(s[i], t[i]) {
        LowerCharAlike(s[i], t[i]);
        assert Lower(s)[i] == Lower(t)[i];
      }
    }
  }

  /** `needle` occurs in `hay` starting at position k. */
  predicate OccursAt(hay: string, needle: string, k: int) {
    0 <= k && k + |needle| <= |hay| && hay[k..k + |needle|] == needle
  }

  /** `hay.includes(needle)`. */
  predicate Contains(hay: string, needle: string) {
    exists k | 0 <= k <= |hay| - |needle| :: OccursAt(hay, needle, k)
  }

  // ---------------------------------------------------------------------
  // Filtering

  /** A string filter is applied only when it is present and non-empty
      (the source tests it for truthiness). */
  predicate Supplied(s: Option<string>) {
    s.Some? && s.value != ""
  }

  predicate Satisfies(p: Product, c: Criterion) {
    match c
    case InCategory(cat) => p.category == cat
    case AtLeast(m) => p.price >= m
    case AtMost(m) => p.price <= m
    case Mentions(t) => Contains(Lower(p.name), Lower(t)) || Contains(Lower(p.description), Lower(t))
  }

  /** The search is case-insensitive: search texts that differ only in the
      case of their letters select the same products. */
  lemma SearchIgnoresCase(p: Product, t: string, u: string)
    requires SameIgnoringCase(t, u)
    ensures Satisfies(p, Mentions(t)) <==> Satisfies(p, Mentions(u))
  {
    LowerAlike(t, u);
  }

  /** Lower-casing a string lower-cases each of its slices. */
  lemma LowerSlice(s: string, i: int, j: int)
    requires 0 <= i <= j <= |s|
    ensures Lower(s)[i..j] == Lower(s[i..j])
  {}

  /** A product whose name or description holds the search text, as typed,
      is found by the search. */
  lemma SearchFindsVerbatim(p: Product, t: string)
    requires Contains(p.name, t) || Contains(p.description, t)
    ensures Satisfies(p, Mentions(t))
  {
    var hay := if Contains(p.name, t) then p.name else p.description;
    var k :| 0 <= k <= |hay| - |t| && OccursAt(hay, t, k);
    LowerSlice(hay, k, k + |t|);
    assert OccursAt(Lower(hay), Lower(t), k);
  }

  predicate SatisfiesAll(p: Product, cs: seq<Criterion>) {
    forall i | 0 <= i < |cs| :: Satisfies(p, cs[i])
  }

  /** The criteria a filter object imposes, in the order the source applies them. */
  function Criteria(f: Filters): seq<Criterion> {
    (if Supplied(f.category) then [InCategory(f.category.value)] else [])
    + (if f.minPrice.Some? then [AtLeast(f.minPrice.value)] else [])
    + (if f.maxPrice.Some? then [AtMost(f.maxPrice.value)] else [])
    + (if Supplied(f.search) then [Mentions(f.search.value)] else [])
  }

  predicate Matches(f: Filters, p: Product) {
    SatisfiesAll(p, Criteria(f))
  }

  /** Matches spelled out filter by filter: each supplied filter restricts,
      an absent or empty one does not. */
  lemma MatchesMeans(f: Filters, p: Product)
    ensures Matches(f, p) <==>
      && (Supplied(f.category) ==> p.category == f.category.value)
      && (f.minPrice.Some? ==> p.price >= f.minPrice.value)
      && (f.maxPrice.Some? ==> p.price <= f.maxPrice.value)
      && (Supplied(f.search) ==>
            Contains(Lower(p.name), Lower(f.search.value)) || Contains(Lower(p.description), Lower(f.search.value)))
  {
    var a := if Supplied(f.category) then [InCategory(f.category.value)] else [];
    var b := if f.minPrice.Some? then [AtLeast(f.minPrice.value)] else [];
    var c := if f.maxPrice.Some? then [AtMost(f.maxPrice.value)] else [];
    var d := if Supplied(f.search) then [Mentions(f.search.value)] else [];
    assert Criteria(f) == a + b + c + d;
    SatisfiesAllConcat(p, a + b + c, d);
    SatisfiesAllConcat(p, a + b, c);
    SatisfiesAllConcat(p, a, b);
    assert |a| == 1 ==> a[0] == InCategory(f.category.value);
    assert |b| == 1 ==> b[0] == AtLeast(f.minPrice.value);
    assert |c| == 1 ==> c[0] == AtMost(f.maxPrice.value);
    assert |d| == 1 ==> d[0] == Mentions(f.search.value);
  }

  lemma SatisfiesAllConcat(p: Product, xs: seq<Criterion>, ys: seq<Criterion>)
    ensures SatisfiesAll(p, xs + ys) <==> SatisfiesAll(p, xs) && SatisfiesAll(p, ys)
  {
    if SatisfiesAll(p, xs) && SatisfiesAll(p, ys) {
      forall i | 0 <= i < |xs + ys| ensures Satisfies(p, (xs + ys)[i]) {
        if i >= |xs| { assert (xs + ys)[i] == ys[i - |xs|]; }
      }
    }
    if SatisfiesAll(p, xs + ys) {
      forall i | 0 <= i < |xs| ensures Satisfies(p, xs[i]) {
        assert (xs + ys)[i] == xs[i];
      }
      forall i | 0 <= i < |ys| ensures Satisfies(p, ys[i]) {
        assert (xs + ys)[|xs| + i] == ys[i];
      }
    }
  }

  /** One `Array.prototype.filter` call with a single criterion. */
  function Select(s: seq<Product>, c: Criterion): (r: seq<Product>)
    ensures |r| <= |s|
    ensures forall x :: x in r <==> x in s && Satisfies(x, c)
  {
    if s == [] then []
    else (if Satisfies(s[0], c) then [s[0]] else []) + Select(s[1..], c)
  }

  /** Reference definition: the products of `s` that meet every criterion,
      in their order in `s`. */
  function Keep(s: seq<Product>, cs: seq<Criterion>): seq<Product> {
    if s == [] then []
    else (if SatisfiesAll(s[0], cs) then [s[0]] else []) + Keep(s[1..], cs)
  }

  /** The products of a catalog that match a filter object, in catalog order. */
  function Filtered(products: seq<Product>, f: Filters): seq<Product> {
    Keep(products, Criteria(f))
  }

  lemma {:induction false} KeepMembers(s: seq<Product>, cs: seq<Criterion>)
    ensures forall x :: x in Keep(s, cs) <==> x in s && SatisfiesAll(x, cs)
    ensures |Keep(s, cs)| <= |s|
  {
    if s != [] {
      KeepMembers(s[1..], cs);
      assert s == [s[0]] + s[1..];
    }
  }

  lemma {:induction false} KeepNothing(s: seq<Product>)
    ensures Keep(s, []) == s
  {
    if s != [] {
      KeepNothing(s[1..]);
      assert SatisfiesAll(s[0], []);
    }
  }

  /** Applying one more `.filter` to an already filtered list is the same as
      filtering the original by the longer list of criteria. */
  lemma {:induction false} SelectAfterKeep(s: seq<Product>, cs: seq<Criterion>, c: Criterion)
    ensures Select(Keep(s, cs), c) == Keep(s, cs + [c])
  {
    if s != [] {
      var cs' := cs + [c];
      assert SatisfiesAll(s[0], cs') <==> SatisfiesAll(s[0], cs) && Satisfies(s[0], c) by {
        assert forall i | 0 <= i < |cs| :: cs'[i] == cs[i];
        assert cs'[|cs|] == c;
      }
      SelectAfterKeep(s[1..], cs, c);
      var rest := Keep(s[1..], cs);
      if SatisfiesAll(s[0], cs) {
        assert Keep(s, cs) == [s[0]] + rest;
        assert ([s[0]] + rest)[1..] == rest;
      } else {
        assert Keep(s, cs) == rest;
      }
    }
  }

  /** Filtering distributes over concatenation: it never reorders, so the
      result is a subsequence of its input. */
  lemma {:induction false} KeepConcat(s: seq<Product>, t: seq<Product>, cs: seq<Criterion>)
    ensures Keep(s + t, cs) == Keep(s, cs) + Keep(t, cs)
  {
    if s == [] {
      assert s + t == t;
    } else {
      assert (s + t)[0] == s[0] && (s + t)[1..] == s[1..] + t;
      KeepConcat(s[1..], t, cs);
    }
  }

  /** With no filter supplied nothing is excluded and catalog order is kept. */
  lemma NoFiltersKeepsCatalog(products: seq<Product>)
    ensures Filtered(products, NoFilters) == products
  {
    assert Criteria(NoFilters) == [];
    KeepNothing(products);
  }

  /** A product is in the filtered list exactly when it is in the catalog and
      meets every supplied filter. */
  lemma FilteredMembers(products: seq<Product>, f: Filters, p: Product)
    ensures p in Filtered(products, f) <==> p in products && Matches(f, p)
  {
    KeepMembers(products, Criteria(f));
  }

  // ---------------------------------------------------------------------
  // Lookup by id

  function ProductId(p: Product): int {
    p.id
  }

  /** `products.find(product => product.id === id)`, as an index: the first
      product with that id, or -1 when there is none. */
  function IndexOfProduct(products: seq<Product>, id: int): int {
    FirstIndex(products, ProductId, id)
  }

  /** getProductById; None stands for the source's null. */
  function ProductById(products: seq<Product>, id: int): (r: Option<Product>)
    ensures r.None? <==> forall j | 0 <= j < |products| :: products[j].id != id
    ensures r.Some? ==> exists k | 0 <= k < |products| ::
      && products[k] == r.value
      && r.value.id == id
      && forall j | 0 <= j < k :: products[j].id != id
  {
    var k := IndexOfProduct(products, id);
    if k == -1 then None else Some(products[k])
  }

  predicate IdsDistinct(products: seq<Product>) {
    forall i, j | 0 <= i < j < |products| :: products[i].id != products[j].id
  }

  /** In a catalog with distinct ids every product is found by its own id. */
  lemma ProductByIdFindsEach(products: seq<Product>, i: int)
    requires IdsDistinct(products)
    requires 0 <= i < |products|
    ensures ProductById(products, products[i].id) == Some(products[i])
  {
    var k := IndexOfProduct(products, products[i].id);
    assert products[k].id == products[i].id;
  }

  // ---------------------------------------------------------------------
  // Categories

  /** The position of the first product of a category, or -1 if none has it. */
  function IndexOfCategory(products: seq<Product>, c: string): (k: int)
    ensures -1 <= k < |products|
    ensures k >= 0 ==> products[k].category == c
  {
    if products == [] then -1
    else
      var n := |products| - 1;
      var k := IndexOfCategory(products[..n], c);
      if k >= 0 then k else if products[n].category == c then n else -1
  }

  /** A category is found no later than any product carrying it: the
      position is the first one, and -1 only when no product has it. */
  lemma {:induction false} IndexOfCategoryFirst(products: seq<Product>, c: string, j: int)
    requires 0 <= j < |products| && products[j].category == c
    ensures 0 <= IndexOfCategory(products, c) <= j
  {
    var n := |products| - 1;
    if j < n {
      assert products[..n][j] == products[j];
      IndexOfCategoryFirst(products[..n], c, j);
    }
  }

  /** Reference definition of categories: the categories of `ps` in order of
      first appearance, each once. */
  function FirstCategories(ps: seq<Product>): seq<string> {
    if ps == [] then []
    else
      var cs := FirstCategories(ps[..|ps| - 1]);
      var c := ps[|ps| - 1].category;
      if c in cs then cs else cs + [c]
  }

  /** The reference list holds exactly the categories that occur in `ps`. */
  lemma {:induction false} FirstCategoriesMembers(ps: seq<Product>)
    ensures forall c :: c in FirstCategories(ps) <==> IndexOfCategory(ps, c) >= 0
  {
    if ps != [] {
      FirstCategoriesMembers(ps[..|ps| - 1]);
    }
  }

  /** The reference list is ordered by where each category first appears,
      strictly, so no category is listed twice. */
  lemma {:induction false} FirstCategoriesOrdered(ps: seq<Product>)
    ensures forall i, j | 0 <= i < j < |FirstCategories(ps)| ::
      IndexOfCategory(ps, FirstCategories(ps)[i]) < IndexOfCategory(ps, FirstCategories(ps)[j])
  {
    if ps != [] {
      var n := |ps| - 1;
      var front := ps[..n];
      var cs := FirstCategories(front);
      var c := ps[n].category;
      FirstCategoriesOrdered(front);
      FirstCategoriesMembers(front);
      forall i | 0 <= i < |cs| ensures IndexOfCategory(ps, cs[i]) == IndexOfCategory(front, cs[i]) < n {
        assert cs[i] in cs;
      }
      if c !in cs {
        assert IndexOfCategory(front, c) < 0;
        assert IndexOfCategory(ps, c) == n;
        var cats := cs + [c];
        forall i, j | 0 <= i < j < |cats| ensures IndexOfCategory(ps, cats[i]) < IndexOfCategory(ps, cats[j]) {
          assert cats[i] == cs[i];
          if j < |cs| {
            assert cats[j] == cs[j];
            assert IndexOfCategory(front, cs[i]) < IndexOfCategory(front, cs[j]);
          } else {
            assert cats[j] == c;
          }
        }
      }
    }
  }

  // ---------------------------------------------------------------------
  // Reviews

  /** getProductReviews: the reviews of one product, in insertion order. */
  function ReviewsFor(reviews: seq<Review>, productId: int): (r: seq<Review>)
    ensures |r| <= |reviews|
    ensures forall x :: x in r <==> x in reviews && x.productId == productId
  {
    if reviews == [] then []
    else
      var last := reviews[|reviews| - 1];
      ReviewsFor(reviews[..|reviews| - 1], productId) + (if last.productId == productId then [last] else [])
  }

  /** Appending a review adds it to its own product's list and to no other. */
  lemma ReviewsForAppend(reviews: seq<Review>, x: Review, productId: int)
    ensures ReviewsFor(reviews + [x], productId)
         == ReviewsFor(reviews, productId) + (if x.productId == productId then [x] else [])
  {
    assert (reviews + [x])[..|reviews|] == reviews;
  }

  /** The `reduce` that adds up ratings. */
  function SumRatings(rs: seq<Review>): int {
    if rs == [] then 0 else SumRatings(rs[..|rs| - 1]) + rs[|rs| - 1].rating
  }

  /** The arithmetic mean of a list of reviews' ratings; 0 for an empty list
      (the source returns 0 rather than dividing by zero). */
  function MeanRating(rs: seq<Review>): real {
    if |rs| == 0 then 0.0 else SumRatings(rs) as real / |rs| as real
  }

  /** getProductAverageRating. */
  function AverageRating(reviews: seq<Review>, productId: int): real {
    MeanRating(ReviewsFor(reviews, productId))
  }

  lemma {:induction false} SumRatingsBounds(rs: seq<Review>, lo: int, hi: int)
    requires forall i | 0 <= i < |rs| :: lo <= rs[i].rating <= hi
    ensures |rs| * lo <= SumRatings(rs) <= |rs| * hi
  {
    if rs != [] {
      var n := |rs| - 1;
      SumRatingsBounds(rs[..n], lo, hi);
      MulSucc(n, lo);
      MulSucc(n, hi);
    }
  }

  lemma MulSucc(n: int, x: int)
    ensures (n + 1) * x == n * x + x
  {}

  /** Casting to real commutes with multiplication. */
  lemma CastMul(a: int, b: int)
    ensures (a * b) as real == a as real * b as real
  {}

  /** A positive factor can be cancelled from both sides of an inequality. */
  lemma CancelPositive(a: real, b: real, c: real)
    requires c > 0.0 && c * a <= c * b
    ensures a <= b
  {}

  /** A total between count * lo and count * hi, divided by a positive
      count, lies between lo and hi. */
  lemma QuotientWithin(count: int, total: int, lo: int, hi: int)
    requires count > 0 && count * lo <= total <= count * hi
    ensures lo as real <= total as real / count as real <= hi as real
  {
    var c, t := count as real, total as real;
    var q := t / c;
    assert c * q == t;
    CastMul(count, lo);
    CastMul(count, hi);
    CancelPositive(lo as real, q, c);
    CancelPositive(q, hi as real, c);
  }

  /** A total between count * lo and count * hi has its mean between lo and hi. */
  lemma MeanWithin(rs: seq<Review>, lo: int, hi: int)
    requires rs != [] && |rs| * lo <= SumRatings(rs) <= |rs| * hi
    ensures lo as real <= MeanRating(rs) <= hi as real
  {
    QuotientWithin(|rs|, SumRatings(rs), lo, hi);
  }

  /** When every rating lies in [lo, hi], so does the average rating of a
      product that has reviews; a product without reviews averages 0. */
  lemma AverageRatingBounded(reviews: seq<Review>, productId: int, lo: int, hi: int)
    requires forall i | 0 <= i < |reviews| :: lo <= reviews[i].rating <= hi
    ensures ReviewsFor(reviews, productId) == [] ==> AverageRating(reviews, productId) == 0.0
    ensures ReviewsFor(reviews, productId) != [] ==>
      lo as real <= AverageRating(reviews, productId) <= hi as real
  {
    var rs := ReviewsFor(reviews, productId);
    if rs != [] {
      forall i | 0 <= i < |rs| ensures lo <= rs[i].rating <= hi {
        assert rs[i] in reviews;
      }
      SumRatingsBounds(rs, lo, hi);
      MeanWithin(rs, lo, hi);
    }
  }

  /** A new review leaves every other product's average rating unchanged. */
  lemma AverageRatingAfterReview(reviews: seq<Review>, x: Review, productId: int)
    requires productId != x.productId
    ensures AverageRating(reviews + [x], productId) == AverageRating(reviews, productId)
  {
    ReviewsForAppend(reviews, x, productId);
    var rs := ReviewsFor(reviews, productId);
    assert ReviewsFor(reviews + [x], productId) == rs;
  }

  /** The review addReview stores: the generated id unless the reviewer
      supplied one (the spread overrides it), and the timestamp `now`. */
  function NewReview(count: int, input: ReviewInput, now: string): Review {
    Review(if input.id.Some? then input.id.value else count + 1, input.productId, input.rating, now, input.fields)
  }
}
