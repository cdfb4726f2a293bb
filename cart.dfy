/** The cart store: a list of line items, at most one per product id, with
    the two derived totals. */
module Cart {
  import opened Wrappers
  import opened Search
  import Catalog

  /** A line item: a snapshot of the product's id, name, unit price (cents)
      and first image taken when it was first added, and a quantity. `image`
      is None when the product has no image (`images[0]` is undefined). */
  datatype CartItem = CartItem(id: int, name: string, price: int, image: Option<string>, quantity: int)

  /** The line item addToCart pushes for a product not yet in the cart. */
  function Snapshot(p: Catalog.Product, quantity: int): CartItem {
    CartItem(p.id, p.name, p.price, if |p.images| > 0 then Some(p.images[0]) else None, quantity)
  }

  /** totalItems: the `reduce` that adds up the quantities. */
  function TotalItems(items: seq<CartItem>): int {
    if items == [] then 0 else TotalItems(items[..|items| - 1]) + items[|items| - 1].quantity
  }

  /** totalPrice: the `reduce` that adds up price times quantity. */
  function TotalPrice(items: seq<CartItem>): int {
    if items == [] then 0
    else TotalPrice(items[..|items| - 1]) + items[|items| - 1].price * items[|items| - 1].quantity
  }

  function ItemId(item: CartItem): int {
    item.id
  }

  /** `find`/`findIndex` by product id: the first line item with that id, or -1. */
  function IndexOf(items: seq<CartItem>, id: int): int {
    FirstIndex(items, ItemId, id)
  }

  /** At most one line item per product id. */
  predicate IdsDistinct(items: seq<CartItem>) {
    forall i, j | 0 <= i < j < |items| :: items[i].id != items[j].id
  }

  /** Distinct ids and every quantity positive. */
  predicate WellFormed(items: seq<CartItem>) {
    IdsDistinct(items) && forall i | 0 <= i < |items| :: items[i].quantity > 0
  }

  /** The list without its k-th item, the rest in order (`splice(k, 1)`). */
  function RemoveAt(items: seq<CartItem>, k: int): (r: seq<CartItem>)
    requires 0 <= k < |items|
    ensures |r| == |items| - 1
    ensures forall j | 0 <= j < k :: r[j] == items[j]
    ensures forall j | k <= j < |r| :: r[j] == items[j + 1]
  {
    items[..k] + items[k + 1..]
  }

  // ---------------------------------------------------------------------
  // The totals under the three ways the list changes

  lemma TotalsAppend(items: seq<CartItem>, x: CartItem)
    ensures TotalItems(items + [x]) == TotalItems(items) + x.quantity
    ensures TotalPrice(items + [x]) == TotalPrice(items) + x.price * x.quantity
  {
    assert (items + [x])[..|items|] == items;
  }

  lemma {:induction false} TotalsReplace(items: seq<CartItem>, k: int, x: CartItem)
    requires 0 <= k < |items|
    ensures TotalItems(items[k := x]) == TotalItems(items) - items[k].quantity + x.quantity
    ensures TotalPrice(items[k := x])
         == TotalPrice(items) - items[k].price * items[k].quantity + x.price * x.quantity
  {
    var n := |items| - 1;
    if k == n {
      assert items[k := x][..n] == items[..n];
    } else {
      assert items[k := x][..n] == items[..n][k := x];
      TotalsReplace(items[..n], k, x);
    }
  }

  /** Raising one line item's quantity by q raises totalItems by q and
      totalPrice by q times that item's unit price. */
  lemma TotalsRaise(items: seq<CartItem>, k: int, q: int)
    requires 0 <= k < |items|
    ensures var raised := items[k := items[k].(quantity := items[k].quantity + q)];
      && TotalItems(raised) == TotalItems(items) + q
      && TotalPrice(raised) == TotalPrice(items) + items[k].price * q
  {
    var item := items[k];
    var updated := item.(quantity := item.quantity + q);
    TotalsReplace(items, k, updated);
    assert item.price * updated.quantity == item.price * item.quantity + item.price * q;
  }

  lemma {:induction false} TotalsRemove(items: seq<CartItem>, k: int)
    requires 0 <= k < |items|
    ensures TotalItems(RemoveAt(items, k)) == TotalItems(items) - items[k].quantity
    ensures TotalPrice(RemoveAt(items, k)) == TotalPrice(items) - items[k].price * items[k].quantity
  {
    var n := |items| - 1;
    var r := RemoveAt(items, k);
    if k == n {
      assert r == items[..n];
    } else {
      TotalsRemove(items[..n], k);
      assert r[..|r| - 1] == RemoveAt(items[..n], k);
      assert r[|r| - 1] == items[n];
    }
  }

  // ---------------------------------------------------------------------
  // The invariant under the three ways the list changes

  lemma WellFormedAppend(items: seq<CartItem>, x: CartItem)
    requires WellFormed(items) && IndexOf(items, x.id) == -1 && x.quantity > 0
    ensures WellFormed(items + [x])
  {}

  lemma WellFormedReplace(items: seq<CartItem>, k: int, x: CartItem)
    requires WellFormed(items) && 0 <= k < |items| && x.id == items[k].id && x.quantity > 0
    ensures WellFormed(items[k := x])
  {}

  lemma WellFormedRemove(items: seq<CartItem>, k: int)
    requires WellFormed(items) && 0 <= k < |items|
    ensures WellFormed(RemoveAt(items, k))
    ensures IdsDistinct(items) ==> IndexOf(RemoveAt(items, k), items[k].id) == -1
  {}

  class CartStore {
    var items: seq<CartItem>

    constructor ()
      ensures items == []
    {
      items := [];
    }

    /** addToCart: raises the quantity of the product's line item by
        `quantity` when there is one, and otherwise appends a snapshot of the
        product; either way totalItems grows by exactly `quantity`. */
    method AddToCart(product: Catalog.Product, quantity: int)
      modifies this
      ensures var k := IndexOf(old(items), product.id);
        && (k >= 0 ==> items == old(items)[k := old(items)[k].(quantity := old(items)[k].quantity + quantity)])
        && (k == -1 ==> items == old(items) + [Snapshot(product, quantity)])
      ensures TotalItems(items) == TotalItems(old(items)) + quantity
      ensures var k := IndexOf(old(items), product.id);
        TotalPrice(items) == TotalPrice(old(items)) + (if k >= 0 then old(items)[k].price else product.price) * quantity
      ensures IdsDistinct(old(items)) ==> IdsDistinct(items)
      ensures WellFormed(old(items)) && quantity > 0 ==> WellFormed(items)
    {
      var k := IndexOf(items, product.id);
      if k >= 0 {
        var item := items[k];
        var updated := item.(quantity := item.quantity + quantity);
        TotalsRaise(items, k, quantity);
        if WellFormed(items) && quantity > 0 {
          WellFormedReplace(items, k, updated);
        }
        items := items[k := updated];
      } else {
        var item := Snapshot(product, quantity);
        TotalsAppend(items, item);
        if WellFormed(items) && quantity > 0 {
          WellFormedAppend(items, item);
        }
        items := items + [item];
      }
    }

    /** removeFromCart: drops the first line item with that id and keeps the
        rest in order; an absent id changes nothing. */
    method RemoveFromCart(productId: int)
      modifies this
      ensures var k := IndexOf(old(items), productId);
        && (k >= 0 ==> items == RemoveAt(old(items), k))
        && (k == -1 ==> items == old(items))
      ensures var k := IndexOf(old(items), productId);
        && TotalItems(items) == TotalItems(old(items)) - (if k >= 0 then old(items)[k].quantity else 0)
        && TotalPrice(items) == TotalPrice(old(items)) - (if k >= 0 then old(items)[k].price * old(items)[k].quantity else 0)
      ensures IdsDistinct(old(items)) ==> IndexOf(items, productId) == -1
      ensures WellFormed(old(items)) ==> WellFormed(items)
    {
      var k := IndexOf(items, productId);
      if k != -1 {
        TotalsRemove(items, k);
        if WellFormed(items) {
          WellFormedRemove(items, k);
        }
        items := RemoveAt(items, k);
      }
    }

    /** updateQuantity: an absolute quantity for an existing line item; a
        quantity of 0 or less removes the item, and an absent id changes
        nothing (no item is created). */
    method UpdateQuantity(productId: int, quantity: int)
      modifies this
      ensures var k := IndexOf(old(items), productId);
        && (k == -1 ==> items == old(items))
        && (k >= 0 && quantity <= 0 ==> items == RemoveAt(old(items), k))
        && (k >= 0 && quantity > 0 ==> items == old(items)[k := old(items)[k].(quantity := quantity)])
      ensures IndexOf(old(items), productId) == -1 ==> IndexOf(items, productId) == -1
      ensures WellFormed(old(items)) ==> WellFormed(items)
    {
      var k := IndexOf(items, productId);
      if k != -1 {
        if quantity <= 0 {
          RemoveFromCart(productId);
        } else {
          var updated := items[k].(quantity := quantity);
          if WellFormed(items) {
            WellFormedReplace(items, k, updated);
          }
          items := items[k := updated];
        }
      }
    }

    /** clearCart: the cart is empty, so both totals are 0. */
    method ClearCart()
      modifies this
      ensures items == []
      ensures TotalItems(items) == 0 && TotalPrice(items) == 0
    {
      items := [];
    }
  }
}
