# WebStore on Vue 3 — a verified model of the stores and the router guard

This project models the client-side logic of a small Vue 3 / Pinia storefront in Dafny and proves properties of the model:

- the **cart store**: line items keyed by product id, `addToCart`, `removeFromCart`, `updateQuantity`, `clearCart` and the two totals;
- the **auth store**: the mock user directory, the session without the password, `register`, `login`, `logout`, `addOrder`;
- the **product store**: filtering and sorting (`getFilteredProducts`), lookup by id, distinct categories, reviews per product, average rating, `addReview`;
- the **router**: the route table's `meta` flags and the `beforeEach` guard, including where a navigation lands.

Layout:

- `wrappers.dfy`: `Option`.
- `search.dfy` (module `Search`): the first-index search that the lookups by id share.
- `catalog.dfy` (module `Catalog`): the records and the pure queries of the product store.
- `product_sort.dfy` (module `ProductSort`): the sort keys and comparators, and the in-place sort on an array.
- `product_store.dfy` (module `ProductStore`): class `CatalogStore`, which holds the catalog and the review list and runs the step-by-step operations.
- `cart.dfy` (module `Cart`): class `CartStore`.
- `auth.dfy` (module `Auth`): class `AuthStore`.
- `router.dfy` (module `Router`): the route table, path resolution, the guard, and navigation with redirects.

The stores that change state are classes whose `seq` fields their methods reassign, and each method's `ensures` gives the whole new state.

**Modelling choices**
- Prices are integer cents.
- A rating is an integer, and the average rating is a `real`.
- The review timestamp is a parameter (`now`).
- An order is a type parameter of the auth store.

## Model

| member | source | states |
|---|---|---|
| Search.FirstIndex | src/store/cart.js:18 | the first element whose key is the given id, or -1 exactly when no element has it; the one search behind the three lookups by id |
| Cart.IndexOf | src/store/cart.js:18 | definition, no contract: FirstIndex on the line items' ids, as the `find`/`findIndex` of addToCart, removeFromCart and updateQuantity |
| Cart.Snapshot | src/store/cart.js:23-29 | definition, no contract: the pushed line item, with the product's id, name, price, first image (None without images) and the quantity |
| Cart.TotalItems | src/store/cart.js:7-9 | definition, no contract: the sum of the quantities; how each cart operation moves it is stated by the Totals lemmas below |
| Cart.TotalPrice | src/store/cart.js:11-15 | definition, no contract: the sum of price × quantity; how each cart operation moves it is stated by the Totals lemmas below |
| Cart.RemoveAt | src/store/cart.js:36 | `splice(k, 1)`: one shorter, items before k unchanged, items after k shifted down by one |
| Cart.TotalsAppend | src/store/cart.js:7-15 | appending an item adds its quantity to totalItems and price × quantity to totalPrice |
| Cart.TotalsReplace | src/store/cart.js:7-15 | replacing one item changes each total by exactly that item's difference |
| Cart.TotalsRaise | src/store/cart.js:21 | raising one item's quantity by q raises totalItems by q and totalPrice by q × its unit price |
| Cart.TotalsRemove | src/store/cart.js:33-38 | removing an item lowers each total by exactly that item's contribution |
| Cart.WellFormedAppend | src/store/cart.js:23-29 | pushing an item whose id is not yet in the cart, with a positive quantity, keeps ids distinct and quantities positive |
| Cart.WellFormedReplace | src/store/cart.js:21 | replacing an item by one with the same id and a positive quantity keeps ids distinct and quantities positive |
| Cart.WellFormedRemove | src/store/cart.js:36 | removing an item keeps ids distinct and quantities positive, and with distinct ids its id is then absent |
| Cart.CartStore.constructor | src/store/cart.js:5 | the cart starts empty |
| Cart.CartStore.AddToCart | src/store/cart.js:17-31 | an existing item's quantity grows by q and nothing else changes; otherwise one snapshot item (id, name, price, first image, q) is appended; totalItems grows by exactly q either way; distinct ids and positive quantities are preserved |
| Cart.CartStore.RemoveFromCart | src/store/cart.js:33-38 | the first item with the id is removed and the rest keep their order; an absent id changes nothing; totals drop by that item's share; with distinct ids the id is gone afterwards |
| Cart.CartStore.UpdateQuantity | src/store/cart.js:40-49 | an absent id changes nothing and creates no item; q ≤ 0 removes the item; otherwise its quantity becomes exactly q and the other items are unchanged |
| Cart.CartStore.ClearCart | src/store/cart.js:51-53 | the cart is empty, so totalItems and totalPrice are 0 |
| Auth.CredentialIndex | src/store/auth.js:45-47 | the first directory entry whose email and password both match, or -1 exactly when none does |
| Auth.UserIndexById | src/store/auth.js:67 | definition, no contract: FirstIndex on the entries' ids |
| Auth.EmailTaken | src/store/auth.js:21 | definition, no contract: some entry has the email |
| Auth.NewUser | src/store/auth.js:27-33 | definition, no contract: id = length + 1, the given email, password and name, no orders |
| Auth.EmailInUse | src/store/auth.js:23 | definition, no contract: the message of a refused registration |
| Auth.InvalidCredentials | src/store/auth.js:56 | definition, no contract: the message of a refused login |
| Auth.WithoutPassword | src/store/auth.js:38-39 | definition, no contract: the entry's id, email, name and orders, without the password |
| Auth.UserIndexBySequentialId | src/store/auth.js:28 | since ids are handed out as length + 1, the entry with id n sits at position n - 1 |
| Auth.RegisterKeepsEmailsDistinct | src/store/auth.js:21-35 | appending a user whose email is unused keeps the directory's emails distinct |
| Auth.SpreadWithoutPassword | src/store/auth.js:38-39 | definition, no contract: the shallow copy `{ ...u }` keeps a reference to the entry's own orders object |
| Auth.AddOrderAsWritten | src/store/auth.js:63-72 | as written, on a session copied from the entry, the two pushes reach one shared array: it ends as old + [order, order], never old + [order], and the session reads the same list |
| Auth.DemoUserOrderRecordedTwice | src/store/auth.js:44-72 | logged in as the demo user, whose orders start empty, one addOrder leaves exactly [order, order] |
| Auth.AuthStore.constructor | src/store/auth.js:5-17 | logged out, with the single demo user in the directory |
| Auth.AuthStore.IsAuthenticated | src/store/auth.js:6 | definition, no contract: there is a session |
| Auth.AuthStore.Register | src/store/auth.js:19-42 | a taken email gives 'Email already in use' and changes nothing; otherwise one user is appended with id = old length + 1 and no orders, the session becomes that user without the password, and isAuthenticated holds; distinct emails and the session invariant are preserved |
| Auth.AuthStore.Login | src/store/auth.js:44-57 | succeeds exactly when some entry matches both email and password, and the session then becomes the first such entry without its password; a failure gives 'Invalid email or password' and leaves the session and directory unchanged |
| Auth.AuthStore.Logout | src/store/auth.js:59-61 | no session afterwards, so isAuthenticated is false; the directory is unchanged |
| Auth.AuthStore.AddOrder | src/store/auth.js:63-72 | without a session nothing changes; otherwise the order is appended once to the session's entry and once to the session's own list, and no other entry changes; under the store's invariant the entry found is the one at position id - 1, so a session always finds its entry |
| Catalog.LowerChar | src/store/products.js:36 | the result is never an upper-case ASCII letter and is the same letter as the input |
| Catalog.LowerCharAlike | src/store/products.js:36-40 | two characters lower-case alike exactly when they differ at most in case |
| Catalog.Lower | src/store/products.js:36-40 | the same length, no upper-case letter left, and each character the same letter as before |
| Catalog.LowerAlike | src/store/products.js:36-40 | two strings lower-case alike exactly when they have the same length and differ at most in the case of their letters |
| Catalog.Contains | src/store/products.js:39-40 | definition, no contract: `includes`, some position where the needle occurs |
| Catalog.Supplied | src/store/products.js:15 | definition, no contract: the truthiness test of the category and search filters, present and non-empty; MatchesMeans states its effect |
| Catalog.Satisfies | src/store/products.js:16-41 | definition, no contract: the four `.filter` callbacks (category equal, price at least, price at most, lower-cased text in name or description); MatchesMeans spells them out per filter |
| Catalog.SearchIgnoresCase | src/store/products.js:35-41 | search texts that differ only in case select the same products |
| Catalog.SearchFindsVerbatim | src/store/products.js:35-41 | a product whose name or description contains the search text as typed is kept by the search |
| Catalog.Criteria | src/store/products.js:15-42 | definition, no contract: the criteria of the supplied filters in the source's order; MatchesMeans states what they impose |
| Catalog.Filtered | src/store/products.js:12-42 | definition, no contract: the catalog narrowed by those criteria; FilteredMembers and KeepConcat state its contents and order |
| Catalog.SatisfiesAllConcat | src/store/products.js:15-42 | meeting a concatenation of criteria is meeting both parts |
| Catalog.Matches | src/store/products.js:15-42 | definition, no contract: a product meets every criterion of the filter object; MatchesMeans states what that imposes |
| Catalog.MatchesMeans | src/store/products.js:15-42 | a product matches a filter object exactly when it meets every supplied filter: equal category, price ≥ min, price ≤ max, and the lower-cased search text inside the lower-cased name or description; an empty or absent filter imposes nothing |
| Catalog.Select | src/store/products.js:16-18 | one `.filter` call keeps exactly the elements meeting its criterion |
| Catalog.Keep | src/store/products.js:12-42 | definition, no contract: the catalog narrowed by a list of criteria at once; Select, SelectAfterKeep and KeepConcat relate it to the chained `.filter` calls |
| Catalog.KeepMembers | src/store/products.js:12-42 | the reference filter keeps exactly the elements meeting every criterion |
| Catalog.SelectAfterKeep | src/store/products.js:15-42 | one more `.filter` on a filtered list equals filtering by the longer list of criteria |
| Catalog.KeepConcat | src/store/products.js:12-42 | filtering distributes over concatenation, so it never reorders and the result is a subsequence of the catalog |
| Catalog.NoFiltersKeepsCatalog | src/store/products.js:11-12 | with no filters every product is kept, in catalog order |
| Catalog.FilteredMembers | src/store/products.js:12-42 | a product is in the filtered list exactly when it is in the catalog and matches the filters |
| Catalog.IndexOfProduct | src/store/products.js:76 | definition, no contract: FirstIndex on the products' ids; ProductById states what it finds |
| Catalog.ProductById | src/store/products.js:74-78 | None exactly when no product has the id; otherwise the first product with that id |
| Catalog.ProductByIdFindsEach | src/store/products.js:76 | in a catalog with distinct ids, every product is found by its own id |
| Catalog.IndexOfCategory | src/store/products.js:81-87 | a position in range whose product has the category, or -1 |
| Catalog.IndexOfCategoryFirst | src/store/products.js:81-87 | a category is found no later than any product that carries it |
| Catalog.FirstCategories | src/store/products.js:81-87 | definition, no contract: each product's category appended when first seen |
| Catalog.FirstCategoriesMembers | src/store/products.js:81-87 | the reference list of categories holds exactly the categories occurring in the catalog |
| Catalog.FirstCategoriesOrdered | src/store/products.js:81-87 | the reference list is strictly ordered by first appearance, so each category appears once |
| Catalog.ReviewsFor | src/store/products.js:90-94 | exactly the reviews of that product, and no more than there are reviews |
| Catalog.ReviewsForAppend | src/store/products.js:106-112 | appending a review adds it at the end of its own product's reviews and leaves every other product's reviews unchanged |
| Catalog.SumRatings | src/store/products.js:101 | definition, no contract: the `reduce` adding up the ratings; SumRatingsBounds states its range |
| Catalog.MeanRating | src/store/products.js:99-102 | definition, no contract: 0 for no reviews, otherwise sum over count; MeanWithin and AverageRatingBounded state its range |
| Catalog.SumRatingsBounds | src/store/products.js:101 | with every rating in [lo, hi], the sum lies between count × lo and count × hi |
| Catalog.QuotientWithin | src/store/products.js:102 | an integer total between count × lo and count × hi, divided as reals by a positive count, lies in [lo, hi] |
| Catalog.MeanWithin | src/store/products.js:102 | such a sum divided by the count lies in [lo, hi] |
| Catalog.AverageRating | src/store/products.js:97-103 | definition, no contract: the mean rating of the product's reviews, 0 when it has none; AverageRatingBounded states its range |
| Catalog.AverageRatingBounded | src/store/products.js:97-103 | the average rating is 0 without reviews; otherwise it lies in [lo, hi] whenever every rating does |
| Catalog.AverageRatingAfterReview | src/store/products.js:106-112 | a new review leaves every other product's average rating unchanged |
| Catalog.NewReview | src/store/products.js:107-111 | definition, no contract: id = count + 1 unless the reviewer supplied one, the reviewer's fields, and the timestamp `now` |
| ProductSort.KeyName | src/store/products.js:47-59 | definition, no contract: the case label of each key; ParseKeyName states that each label selects its key |
| ProductSort.ParseSortKey | src/store/products.js:45-67 | a recognised key is exactly one of the five case labels; anything else, including an absent or empty sort, selects no sort |
| ProductSort.ParseKeyName | src/store/products.js:46-66 | each of the five labels selects its own key |
| ProductSort.NameLeq | src/store/products.js:54 | definition, no contract: lexicographic order on character codes |
| ProductSort.Ratings | src/store/products.js:61-62 | definition, no contract: each product id's current average rating |
| ProductSort.Before | src/store/products.js:47-65 | definition, no contract: the order each key's comparator puts two products in |
| ProductSort.Sorted | src/store/products.js:48 | definition, no contract: each product is in comparator order with its successor; SortedPairwise extends it to every pair |
| ProductSort.NameLeqTotal | src/store/products.js:54 | the name order relates any two names |
| ProductSort.NameLeqTransitive | src/store/products.js:54 | the name order is transitive |
| ProductSort.BeforeTotal | src/store/products.js:47-65 | every comparator the keys select is total |
| ProductSort.BeforeTransitive | src/store/products.js:47-65 | every comparator the keys select is transitive |
| ProductSort.SortedPairwise | src/store/products.js:45-67 | a list sorted between neighbours is in comparator order for every pair |
| ProductSort.PriceAscNonDecreasing | src/store/products.js:47-49 | 'price-asc' leaves prices non-decreasing |
| ProductSort.PriceDescNonIncreasing | src/store/products.js:50-52 | 'price-desc' leaves prices non-increasing |
| ProductSort.RatingDescNonIncreasing | src/store/products.js:59-64 | 'rating-desc' leaves the current average ratings non-increasing |
| ProductSort.DescendingUnique | src/store/products.js:50-52 | a 'price-desc' result over products with distinct prices is the only strictly descending arrangement of them |
| ProductSort.AscendingReversedIsDescending | src/store/products.js:47-52 | with distinct prices, the 'price-desc' result is the 'price-asc' result reversed |
| ProductSort.SortInPlace | src/store/products.js:48 | after the in-place sort the array is in comparator order and holds the same products (a permutation) |
| ProductSort.SinkLast | src/store/products.js:48 | one insertion step grows the sorted prefix by one and keeps the same products |
| ProductStore.CatalogStore.constructor | src/store/products.js:6-7 | the store holds the given catalog and no reviews |
| ProductStore.CatalogStore.Narrow | src/store/products.js:12-42 | the four conditional `.filter` steps compute exactly the reference filtered list |
| ProductStore.CatalogStore.GetFilteredProducts | src/store/products.js:10-70 | the result is a permutation of the filtered catalog; without a recognised sort key it is the filtered catalog in catalog order, and with one it is sorted by that key's comparator |
| ProductStore.CatalogStore.Categories | src/store/products.js:81-87 | every catalog category exactly once, nothing else, in order of first appearance |
| ProductStore.CatalogStore.AddReview | src/store/products.js:106-112 | appends exactly one review with id = old count + 1 (or the reviewer's id) and timestamp `now`; that product's reviews grow by exactly this review and every other product's reviews are unchanged |
| ProductStore.MinPriceFilterScenario | src/store/products.js:22-26 | products at 10.00, 20.00 and 30.00 with minimum price 15.00 leave the second and third, in catalog order |
| ProductStore.ScenarioDescendingOrder | src/store/products.js:50-52 | those two sorted 'price-desc' can only be the third then the second |
| ProductStore.MinPriceDescendingScenario | src/store/products.js:10-70 | a fresh store over those three products, asked for minimum price 15.00 sorted 'price-desc', returns exactly [third, second] |
| Router.Routes | src/router/index.js:14-73 | definition, no contract: the nine records in declaration order, with their paths and flags |
| Router.SomeRequiresAuth | src/router/index.js:89 | definition, no contract: some matched record requires a session; Guard states the decision it drives |
| Router.SomeHideForAuth | src/router/index.js:90 | definition, no contract: some matched record is hidden from a session; Guard states the decision it drives |
| Router.Admits | src/router/index.js:92-97 | definition, no contract: the flags let the visitor through; Guard proceeds exactly when they do |
| Router.PatternMatches | src/router/index.js:16-69 | definition, no contract: a fixed path matches itself, `/products/:id` one non-empty segment below '/products/', the catch-all everything; Resolve and RedirectTargetsProceed use it |
| Router.Guard | src/router/index.js:87-99 | proceeds exactly when the flags admit the visitor; redirects to '/login' exactly when a members-only page is visited without a session; any other redirect goes to '/' |
| Router.BothFlagsNeverProceed | src/router/index.js:92-95 | a page with both flags goes to '/login' when logged out and to '/' when logged in, never proceeding |
| Router.FirstMatch | src/router/index.js:14-73 | the first route record whose path pattern matches, or -1 exactly when none does |
| Router.Resolve | src/router/index.js:14-73 | every path resolves to a declared record whose pattern matches it (the catch-all at worst) |
| Router.Navigate | src/router/index.js:87-99 | a navigation that lands does so on a declared route whose flags admit the visitor |
| Router.RedirectTargetsProceed | src/router/index.js:44-51 | '/login' resolves to Login, which the guard lets through without a session; '/' resolves to Home, which it always lets through |
| Router.NavigationSettles | src/router/index.js:87-99 | every navigation lands after at most one redirect, so there is no redirect loop |
| Router.TableFlags | src/router/index.js:36-67 | only Checkout and Profile require a session; only Login and Register are hidden from logged-in visitors |
| Router.GatedPagesUnreachable | src/router/index.js:36-67 | without a session, navigation never lands on Checkout or Profile; with one, never on Login or Register |

## Left out

- Reactivity (`ref`, `computed`, `defineStore`) is not modelled: a store is plain state, and a computed value is a function of that state.
- Persistence to localStorage (`persist: true`) is not modelled; it is I/O.
- vue-router machinery is not modelled: history, `scrollBehavior`, the view components and `props: true`.
- Router.Resolve: first match in declaration order, with exact, case-sensitive paths, stands in for vue-router's ranking. Its case-insensitive matching, trailing-slash leniency, query strings and percent-decoding are not modelled. For this table the ranking and first match agree.
- Floating point is not modelled. Prices are integer cents, so `price * quantity` and the price comparators are exact. The average rating is an exact `real`, not a double.
- ProductSort.NameLeq: `localeCompare` is modelled as lexicographic order on character codes. Collation rules are not modelled.
- Catalog.Lower: `toLowerCase` is modelled on ASCII letters only. Other Unicode case mappings are not modelled.
- ProductSort.SortInPlace: the result is proved sorted and a permutation, but not stable. For products the comparator ties, the model does not say which order the engine's stable sort keeps.
- Catalog.ProductById takes an integer id; the `parseInt` coercion of its argument is not modelled.
- Catalog.Filters: a present-but-`null` minimum or maximum price, and filter values of other JavaScript types, are not modelled. An absent key is None.
- Catalog.NewReview and Catalog.Review: the reviewer's other fields are kept in a separate map. A field in that map named like a stored field (`productId`, `rating`, `date`) is not merged over it. The reviewer's `id` does override the generated one. `date` is always the given `now`.
- The clock (`new Date().toISOString()`) is the parameter `now`.
- Cart.CartStore.AddToCart takes the quantity explicitly. Callers relying on the default argument pass 1.
- Cart.CartStore.AddToCart: the quantity is not validated, as in the source. A non-positive quantity is accepted, and well-formedness (all quantities positive) is then only claimed for positive quantities.
- Auth.AuthStore.AddOrder keeps the directory entry's and the session's order lists as separate sequences, each gaining the order once. This is the evident intent. The sharing of one array as written is recorded under Findings and modelled by Auth.AddOrderAsWritten.
- Passwords are compared by equality; nothing is claimed about their security.
- src/main.js (bootstrap) and src/data/products.js (seed data) are not part of this model.

## Findings

| source | as written | input that shows it | evidently intended | confidence | as-written member | corrected member |
|---|---|---|---|---|---|---|
| src/store/auth.js:69-70 | the session comes from the shallow copy `{ ...user }` (lines 38 and 51), so its `orders` is the same array as the directory entry's; `addOrder` pushes onto both references, so one list gains the order twice | log in as the demo user (orders `[]`) and call `addOrder(o)`: both the entry and the session then read `[o, o]` | the entry and the session each gain the order once | medium; not executed (after a reload the persisted session is a separate copy, and the pushes no longer alias) | Auth.AddOrderAsWritten | Auth.AuthStore.AddOrder |
