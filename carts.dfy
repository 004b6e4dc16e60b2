/** Shopping carts: the cart store (app/crud/crud_cart.py over
    app/models/cart.py and app/models/cart_item.py) and the cart endpoints
    (app/api/v1/endpoints/carts.py). */
module Carts {
  import opened Common
  import Catalog

  datatype Cart = Cart(id: nat, userId: int)

  datatype CartItem = CartItem(id: nat, cartId: nat, productId: int, quantity: int)

  /** `CartItemCreate`. */
  datatype CartItemCreate = CartItemCreate(productId: int, quantity: int)

  /** `CartItemUpdate`: both fields may be left out; `product_id` may also
      be given as null. */
  datatype CartItemUpdate = CartItemUpdate(productId: Patch<Option<int>>, quantity: Patch<int>)

  /** What `update_cart_item_quantity` answers: the updated item, or the
      removal message. */
  datatype QuantityUpdate = ItemUpdated(item: CartItem) | ItemRemoved(message: string)

  const PRODUCT_NOT_FOUND: string := "Product not found"
  const CART_NOT_FOUND: string := "Cart not found"
  const ITEM_NOT_FOUND: string := "Cart item not found"
  const ITEM_REMOVED: string := "Item removed from cart"

  // ---------------------------------------------------------------------
  // Queries
  // ---------------------------------------------------------------------

  /** `get_cart_by_user_id`: the first cart of the user. */
  function CartOfUser(carts: seq<Cart>, userId: int): (r: Option<Cart>)
    ensures r.Some? ==> r.value in carts && r.value.userId == userId
    ensures r.Some? ==> exists i :: 0 <= i < |carts| && carts[i] == r.value
                                 && forall j :: 0 <= j < i ==> carts[j].userId != userId
    ensures r.None? <==> forall j :: 0 <= j < |carts| ==> carts[j].userId != userId
  {
    First(carts, (c: Cart) => c.userId == userId)
  }

  /** `get_cart_item`: the position of the item with that id. */
  function ItemIndex(items: seq<CartItem>, itemId: int): (r: Option<nat>)
    ensures r.Some? ==> (r.value < |items| && items[r.value].id == itemId)
    ensures r.None? <==> forall j :: 0 <= j < |items| ==> items[j].id != itemId
  {
    FirstIndex(items, (it: CartItem) => it.id == itemId)
  }

  /** Whether `it` is a line of cart `cartId` for product `productId`. */
  predicate Holds(it: CartItem, cartId: nat, productId: int) {
    it.cartId == cartId && it.productId == productId
  }

  /** The first line of the cart for the product, in `cart.items` order. */
  function LineFor(items: seq<CartItem>, cartId: nat, productId: int): (r: Option<nat>)
    ensures r.Some? ==> (r.value < |items| && Holds(items[r.value], cartId, productId))
    ensures r.Some? ==> forall j :: 0 <= j < r.value ==> !Holds(items[j], cartId, productId)
    ensures r.None? ==> forall j :: 0 <= j < |items| ==> !Holds(items[j], cartId, productId)
  {
    FirstIndex(items, (it: CartItem) => Holds(it, cartId, productId))
  }

  /** Total quantity of a product in a cart, over all its lines. */
  function QuantityOf(items: seq<CartItem>, cartId: nat, productId: int): int {
    if |items| == 0 then 0
    else QuantityOf(items[..|items| - 1], cartId, productId) + Share(items[|items| - 1], cartId, productId)
  }

  function Share(it: CartItem, cartId: nat, productId: int): int {
    if Holds(it, cartId, productId) then it.quantity else 0
  }

  /** Each cart has at most one line per product. */
  predicate OneLinePerProduct(items: seq<CartItem>) {
    forall i, j :: 0 <= i < j < |items| && items[i].cartId == items[j].cartId ==>
      items[i].productId != items[j].productId
  }

  predicate ItemIdsBelow(items: seq<CartItem>, bound: nat) {
    forall i :: 0 <= i < |items| ==> items[i].id < bound
  }

  // ---------------------------------------------------------------------
  // Reference reading of add_item_to_cart
  // ---------------------------------------------------------------------

  /** The items after adding `item` to cart `cartId`: the first line for the
      product gets the quantities summed, otherwise one line is appended. */
  function Merged(items: seq<CartItem>, cartId: nat, item: CartItemCreate, newId: nat): (r: seq<CartItem>)
    ensures |r| == |items| + (if LineFor(items, cartId, item.productId).Some? then 0 else 1)
  {
    match LineFor(items, cartId, item.productId)
    case Some(i) => items[i := items[i].(quantity := items[i].quantity + item.quantity)]
    case None => items + [CartItem(newId, cartId, item.productId, item.quantity)]
  }

  /** The line `add_item_to_cart` returns. */
  function MergedLine(items: seq<CartItem>, cartId: nat, item: CartItemCreate, newId: nat): CartItem {
    match LineFor(items, cartId, item.productId)
    case Some(i) => items[i].(quantity := items[i].quantity + item.quantity)
    case None => CartItem(newId, cartId, item.productId, item.quantity)
  }

  lemma {:induction false} QuantityOfUpdate(items: seq<CartItem>, i: nat, v: CartItem, cartId: nat, productId: int)
    requires i < |items|
    ensures QuantityOf(items[i := v], cartId, productId)
         == QuantityOf(items, cartId, productId) - Share(items[i], cartId, productId) + Share(v, cartId, productId)
  {
    var n := |items|;
    if i == n - 1 {
      assert items[i := v][..n - 1] == items[..n - 1];
    } else {
      assert items[i := v][..n - 1] == items[..n - 1][i := v];
      QuantityOfUpdate(items[..n - 1], i, v, cartId, productId);
    }
  }

  lemma QuantityOfAppend(items: seq<CartItem>, v: CartItem, cartId: nat, productId: int)
    ensures QuantityOf(items + [v], cartId, productId) == QuantityOf(items, cartId, productId) + Share(v, cartId, productId)
  {
    assert (items + [v])[..|items|] == items;
  }

  /** Adding raises the product's total in the cart by exactly the added
      quantity and leaves every other (cart, product) total alone. */
  lemma MergeAddsQuantity(items: seq<CartItem>, cartId: nat, item: CartItemCreate, newId: nat, c: nat, p: int)
    ensures QuantityOf(Merged(items, cartId, item, newId), c, p)
         == QuantityOf(items, c, p) + (if c == cartId && p == item.productId then item.quantity else 0)
  {
    match LineFor(items, cartId, item.productId)
    case Some(i) =>
      QuantityOfUpdate(items, i, items[i].(quantity := items[i].quantity + item.quantity), c, p);
    case None =>
      QuantityOfAppend(items, CartItem(newId, cartId, item.productId, item.quantity), c, p);
  }

  /** A product already in the cart is merged into its line: no new line,
      the line keeps its id and product, and its quantity grows. */
  lemma MergeIntoExistingLine(items: seq<CartItem>, cartId: nat, item: CartItemCreate, newId: nat)
    requires LineFor(items, cartId, item.productId).Some?
    ensures |Merged(items, cartId, item, newId)| == |items|
    ensures var i := LineFor(items, cartId, item.productId).value;
      MergedLine(items, cartId, item, newId) == items[i].(quantity := items[i].quantity + item.quantity)
      && Merged(items, cartId, item, newId) == items[i := MergedLine(items, cartId, item, newId)]
  {
  }

  /** A product not yet in the cart gets exactly one new line of that cart. */
  lemma MergeAppendsNewLine(items: seq<CartItem>, cartId: nat, item: CartItemCreate, newId: nat)
    requires LineFor(items, cartId, item.productId).None?
    ensures Merged(items, cartId, item, newId) == items + [CartItem(newId, cartId, item.productId, item.quantity)]
    ensures MergedLine(items, cartId, item, newId).cartId == cartId
  {
  }

  /** Adding keeps at most one line per product in every cart. */
  lemma MergeKeepsOneLinePerProduct(items: seq<CartItem>, cartId: nat, item: CartItemCreate, newId: nat)
    requires OneLinePerProduct(items)
    ensures OneLinePerProduct(Merged(items, cartId, item, newId))
  {
    var r := Merged(items, cartId, item, newId);
    match LineFor(items, cartId, item.productId)
    case Some(i) =>
      forall a, b | 0 <= a < b < |r| && r[a].cartId == r[b].cartId ensures r[a].productId != r[b].productId {
        assert items[a].cartId == r[a].cartId && items[a].productId == r[a].productId;
        assert items[b].cartId == r[b].cartId && items[b].productId == r[b].productId;
      }
    case None =>
      forall a, b | 0 <= a < b < |r| && r[a].cartId == r[b].cartId ensures r[a].productId != r[b].productId {
        assert r[a] == items[a];
        if b < |items| {
          assert r[b] == items[b];
        } else {
          assert !Holds(items[a], cartId, item.productId);
        }
      }
  }

  // ---------------------------------------------------------------------
  // The 404 chain of update_cart_item_quantity and delete_item_from_cart
  // ---------------------------------------------------------------------

  /** "Cart not found" when the user has no cart; "Cart item not found" when
      the item is missing or lies in another cart; otherwise its position. */
  function ItemAccess(carts: seq<Cart>, items: seq<CartItem>, userId: int, itemId: int): Result<nat> {
    match CartOfUser(carts, userId)
    case None => Err(HttpError(404, CART_NOT_FOUND))
    case Some(cart) =>
      match ItemIndex(items, itemId)
      case None => Err(HttpError(404, ITEM_NOT_FOUND))
      case Some(i) => if items[i].cartId != cart.id then Err(HttpError(404, ITEM_NOT_FOUND)) else Ok(i)
  }

  /** The chain lets an item through exactly when it is in the caller's cart. */
  lemma ItemAccessIff(carts: seq<Cart>, items: seq<CartItem>, userId: int, itemId: int)
    ensures ItemAccess(carts, items, userId, itemId).Ok? <==>
      CartOfUser(carts, userId).Some? && ItemIndex(items, itemId).Some?
      && items[ItemIndex(items, itemId).value].cartId == CartOfUser(carts, userId).value.id
    ensures ItemAccess(carts, items, userId, itemId).Ok? ==>
      ItemAccess(carts, items, userId, itemId).value == ItemIndex(items, itemId).value
    ensures ItemAccess(carts, items, userId, itemId).Err? ==>
      ItemAccess(carts, items, userId, itemId).error.HttpError?
      && ItemAccess(carts, items, userId, itemId).error.status == 404
  {
  }

  /** `setattr` over the fields given in a `CartItemUpdate`. */
  function Patched(it: CartItem, upd: CartItemUpdate): CartItem {
    it.(productId := ApplyValue(upd.productId, it.productId), quantity := upd.quantity.Apply(it.quantity))
  }

  /** An update may move a line onto a product the cart already holds,
      so the one-line-per-product shape is not kept by updates. */
  lemma UpdateCanDuplicateProduct()
    ensures var items := [CartItem(1, 1, 10, 1), CartItem(2, 1, 20, 1)];
      OneLinePerProduct(items)
      && !OneLinePerProduct(items[1 := Patched(items[1], CartItemUpdate(Set(Some(10)), Unset))])
  {
    var items := [CartItem(1, 1, 10, 1), CartItem(2, 1, 20, 1)];
    var after := items[1 := Patched(items[1], CartItemUpdate(Set(Some(10)), Unset))];
    assert after[0].cartId == after[1].cartId && after[0].productId == after[1].productId;
  }

  /** A cart just appended for a user who had none is the one found next time. */
  lemma CreatedCartIsFound(carts: seq<Cart>, c: Cart)
    requires CartOfUser(carts, c.userId).None?
    ensures CartOfUser(carts + [c], c.userId) == Some(c)
  {
    var cs := carts + [c];
    assert forall j :: 0 <= j < |carts| ==> cs[j] == carts[j];
    assert cs[|carts|] == c;
  }

  /** One field of the `update_cart_item` loop. */
  datatype CartField = ProductIdField(productId: Option<int>) | QuantityField(quantity: int)

  /** The ORM object under `setattr`: its `product_id` may hold None until
      the commit checks the NOT NULL constraint. */
  datatype PendingItem = PendingItem(id: nat, cartId: nat, productId: Option<int>, quantity: int)

  function SetField(it: PendingItem, f: CartField): PendingItem {
    match f
    case ProductIdField(p) => it.(productId := p)
    case QuantityField(q) => it.(quantity := q)
  }

  /** `cart_item_in.model_dump(exclude_unset=True).items()`, in field order. */
  function UpdateData(upd: CartItemUpdate): seq<CartField> {
    (if upd.productId.Set? then [ProductIdField(upd.productId.value)] else [])
      + (if upd.quantity.Set? then [QuantityField(upd.quantity.value)] else [])
  }

  /** The in-memory `carts` and `cart_items` tables. */
  class CartStore {
    var carts: seq<Cart>
    var items: seq<CartItem>
    var nextCartId: nat
    var nextItemId: nat

    ghost predicate Valid()
      reads this
    {
      (forall i :: 0 <= i < |carts| ==> carts[i].id < nextCartId)
      && ItemIdsBelow(items, nextItemId)
    }

    constructor ()
      ensures carts == [] && items == [] && Valid()
    {
      carts := [];
      items := [];
      nextCartId := 1;
      nextItemId := 1;
    }

    /** `create_cart`: one new cart for the user. */
    method CreateCart(userId: int) returns (c: Cart)
      requires Valid()
      modifies this
      ensures Valid()
      ensures c == Cart(old(nextCartId), userId) && carts == old(carts) + [c]
      ensures nextCartId == old(nextCartId) + 1
      ensures items == old(items) && nextItemId == old(nextItemId)
    {
      c := Cart(nextCartId, userId);
      carts := carts + [c];
      nextCartId := nextCartId + 1;
    }

    /** `create_cart_item`: one new line with `cart_id` set to the argument. */
    method CreateCartItem(item: CartItemCreate, cartId: nat) returns (ci: CartItem)
      requires Valid()
      modifies this
      ensures Valid()
      ensures ci == CartItem(old(nextItemId), cartId, item.productId, item.quantity)
      ensures items == old(items) + [ci] && nextItemId == old(nextItemId) + 1
      ensures carts == old(carts) && nextCartId == old(nextCartId)
    {
      ci := CartItem(nextItemId, cartId, item.productId, item.quantity);
      items := items + [ci];
      nextItemId := nextItemId + 1;
    }

    /** `update_cart_item` on the line at position `i`: `setattr` for each
        given field, then the commit, which refuses a null `product_id` and
        then changes nothing; nothing else of the line or of the store
        changes. */
    method UpdateCartItem(i: nat, upd: CartItemUpdate) returns (r: Result<CartItem>)
      requires Valid() && i < |items|
      modifies this
      ensures Valid()
      ensures GivesNull(upd.productId) ==> r == Err(IntegrityError("product_id")) && items == old(items)
      ensures !GivesNull(upd.productId) ==>
        r == Ok(Patched(old(items)[i], upd)) && items == old(items)[i := r.value]
      ensures carts == old(carts) && nextCartId == old(nextCartId) && nextItemId == old(nextItemId)
    {
      var fields := UpdateData(upd);
      var it := items[i];
      var pending := PendingItem(it.id, it.cartId, Some(it.productId), it.quantity);
      var k := 0;
      while k < |fields|
        invariant 0 <= k <= |fields|
        invariant pending.id == it.id && pending.cartId == it.cartId
        invariant pending.productId == if k >= 1 && upd.productId.Set? then upd.productId.value else Some(it.productId)
        invariant pending.quantity == if k == |fields| && upd.quantity.Set? then upd.quantity.value else it.quantity
      {
        pending := SetField(pending, fields[k]);
        k := k + 1;
      }
      if pending.productId.None? {
        return Err(IntegrityError("product_id"));
      }
      var ci := CartItem(pending.id, pending.cartId, pending.productId.value, pending.quantity);
      items := items[i := ci];
      return Ok(ci);
    }

    /** `delete_cart_item`: exactly that line goes. */
    method DeleteCartItem(i: nat)
      requires Valid() && i < |items|
      modifies this
      ensures Valid()
      ensures items == RemoveAt(old(items), i)
      ensures carts == old(carts) && nextCartId == old(nextCartId) && nextItemId == old(nextItemId)
    {
      items := RemoveAt(items, i);
    }

    /** The loop over `cart.items` in `add_item_to_cart`: the first line of
        the cart for the product. */
    method FindLine(cartId: nat, productId: int) returns (found: Option<nat>)
      ensures found == LineFor(items, cartId, productId)
    {
      var k := 0;
      while k < |items|
        invariant 0 <= k <= |items|
        invariant forall j :: 0 <= j < k ==> !Holds(items[j], cartId, productId)
      {
        if items[k].cartId == cartId && items[k].productId == productId {
          LineForIsFirst(items, cartId, productId, k);
          return Some(k);
        }
        k := k + 1;
      }
      return None;
    }

    /** `read_my_cart`: the user's cart, created when there is none. */
    method ReadMyCart(userId: int) returns (c: Cart)
      requires Valid()
      modifies this
      ensures Valid() && items == old(items) && nextItemId == old(nextItemId)
      ensures CartOfUser(old(carts), userId).Some? ==>
        c == CartOfUser(old(carts), userId).value && carts == old(carts) && nextCartId == old(nextCartId)
      ensures CartOfUser(old(carts), userId).None? ==>
        c == Cart(old(nextCartId), userId) && carts == old(carts) + [c] && nextCartId == old(nextCartId) + 1
      ensures CartOfUser(carts, userId) == Some(c)
    {
      var existing := CartOfUser(carts, userId);
      if existing.Some? {
        return existing.value;
      }
      c := CreateCart(userId);
      CreatedCartIsFound(old(carts), c);
    }

    /** `add_item_to_cart`: get or create the cart (kept even when the
        product then turns out to be missing), 404 for an unknown product,
        then merge into the first line for the product or create one. */
    method AddItemToCart(userId: int, item: CartItemCreate, products: seq<Catalog.Product>) returns (r: Result<CartItem>)
      requires Valid()
      modifies this
      ensures Valid()
      ensures var cart := if CartOfUser(old(carts), userId).Some? then CartOfUser(old(carts), userId).value
                          else Cart(old(nextCartId), userId);
        carts == (if CartOfUser(old(carts), userId).Some? then old(carts) else old(carts) + [cart])
        && nextCartId == old(nextCartId) + (if CartOfUser(old(carts), userId).Some? then 0 else 1)
        && nextItemId == old(nextItemId)
             + (if Catalog.ProductById(products, item.productId).Some? && LineFor(old(items), cart.id, item.productId).None?
                then 1 else 0)
        && if Catalog.ProductById(products, item.productId).None? then
             r == Err(HttpError(404, PRODUCT_NOT_FOUND)) && items == old(items)
           else
             r == Ok(MergedLine(old(items), cart.id, item, old(nextItemId)))
             && items == Merged(old(items), cart.id, item, old(nextItemId))
    {
      var cart := ReadMyCart(userId);
      var product := Catalog.GetProductIntended(products, Some(item.productId), None);
      if product.None? {
        return Err(HttpError(404, PRODUCT_NOT_FOUND));
      }
      var line := FindLine(cart.id, item.productId);
      if line.Some? {
        var i := line.value;
        r := UpdateCartItem(i, CartItemUpdate(Unset, Set(items[i].quantity + item.quantity)));
        return;
      }
      var ci := CreateCartItem(item, cart.id);
      return Ok(ci);
    }

    /** `update_cart_item_quantity`: the 404 chain; then a missing or
        non-positive quantity removes the line (`Unset` stands for both a
        left-out and a null quantity, which `is None` does not tell apart);
        otherwise the update's fields are applied, and a null `product_id`
        is refused by the commit. */
    method UpdateCartItemQuantity(userId: int, itemId: int, upd: CartItemUpdate) returns (r: Result<QuantityUpdate>)
      requires Valid()
      modifies this
      ensures Valid() && carts == old(carts) && nextCartId == old(nextCartId) && nextItemId == old(nextItemId)
      ensures match ItemAccess(old(carts), old(items), userId, itemId)
        case Err(e) => r == Err(e) && items == old(items)
        case Ok(i) =>
          if upd.quantity.Unset? || upd.quantity.value <= 0 then
            r == Ok(ItemRemoved(ITEM_REMOVED)) && items == RemoveAt(old(items), i)
          else if GivesNull(upd.productId) then
            r == Err(IntegrityError("product_id")) && items == old(items)
          else
            r == Ok(ItemUpdated(Patched(old(items)[i], upd)))
            && items == old(items)[i := Patched(old(items)[i], upd)]
    {
      var access := ItemAccess(carts, items, userId, itemId);
      if access.Err? {
        return Err(access.error);
      }
      var i := access.value;
      if upd.quantity.Unset? || upd.quantity.value <= 0 {
        DeleteCartItem(i);
        return Ok(ItemRemoved(ITEM_REMOVED));
      }
      var updated := UpdateCartItem(i, upd);
      if updated.Err? {
        return Err(updated.error);
      }
      return Ok(ItemUpdated(updated.value));
    }

    /** `delete_item_from_cart`: the 404 chain, then the line goes. */
    method DeleteItemFromCart(userId: int, itemId: int) returns (r: Outcome)
      requires Valid()
      modifies this
      ensures Valid() && carts == old(carts) && nextCartId == old(nextCartId) && nextItemId == old(nextItemId)
      ensures match ItemAccess(old(carts), old(items), userId, itemId)
        case Err(e) => r == Fail(e) && items == old(items)
        case Ok(i) => r == Pass && items == RemoveAt(old(items), i)
    {
      var access := ItemAccess(carts, items, userId, itemId);
      if access.Err? {
        return Fail(access.error);
      }
      DeleteCartItem(access.value);
      return Pass;
    }
  }

  lemma LineForIsFirst(items: seq<CartItem>, cartId: nat, productId: int, k: nat)
    requires k < |items| && Holds(items[k], cartId, productId)
    requires forall j :: 0 <= j < k ==> !Holds(items[j], cartId, productId)
    ensures LineFor(items, cartId, productId) == Some(k)
  {
  }

  /** Reading the cart twice creates at most one cart and gives the same cart. */
  method ReadMyCartTwice(store: CartStore, userId: int) returns (first: Cart, second: Cart)
    requires store.Valid()
    modifies store
    ensures first == second
    ensures |store.carts| <= |old(store.carts)| + 1
  {
    first := store.ReadMyCart(userId);
    second := store.ReadMyCart(userId);
  }
}
