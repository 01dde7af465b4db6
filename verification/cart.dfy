/** The in-memory step of the cart handlers: a user's `cart` is a sequence of
    lines, and each handler rewrites it before the user document is saved.
    The handlers keep at most one line per product; storage does not. */
module Cart {
  import opened Common
  import Lookup

  type ProductId = string

  /** One entry of a user's `cart` or `savedProducts` list. */
  datatype CartLine = CartLine(productId: ProductId, quantity: int)

  /** The schema default for `quantity` when a line is built from its product alone. */
  const DefaultQuantity: int := 1

  /** The line the schema builds from `{ productId }`. */
  function NewLine(p: ProductId): CartLine
  {
    CartLine(p, DefaultQuantity)
  }

  predicate Contains(cart: seq<CartLine>, p: ProductId)
  {
    exists i :: 0 <= i < |cart| && cart[i].productId == p
  }

  /** The cart invariant: at most one line per product. */
  predicate Unique(cart: seq<CartLine>)
  {
    forall i, j :: 0 <= i < |cart| && 0 <= j < |cart| && cart[i].productId == cart[j].productId ==> i == j
  }

  /** `cart.find(item => item.productId == p)`, as an index. */
  function Find(cart: seq<CartLine>, p: ProductId): (r: Option<nat>)
    ensures r.None? <==> !Contains(cart, p)
    ensures r.Some? ==> r.value < |cart| && cart[r.value].productId == p
    ensures r.Some? ==> forall k :: 0 <= k < r.value ==> cart[k].productId != p
    ensures r.Some? && Unique(cart) ==> forall k :: 0 <= k < |cart| && cart[k].productId == p ==> k == r.value
  {
    Lookup.FirstMatch(cart, (l: CartLine) => l.productId == p)
  }

  /** The cart read as a map from product to quantity. The first line for a
      product wins, which is the line `find` returns. */
  function View(cart: seq<CartLine>): map<ProductId, int>
  {
    if |cart| == 0 then map[]
    else View(cart[1..])[cart[0].productId := cart[0].quantity]
  }

  /** Quantity of `p` in the map view, 0 when there is no line. */
  function QuantityOf(m: map<ProductId, int>, p: ProductId): int
  {
    if p in m then m[p] else 0
  }

  /** `/addCart`: raise the quantity of the line for `p`, or append a new line. */
  function Add(cart: seq<CartLine>, p: ProductId): (r: seq<CartLine>)
    ensures Contains(r, p)
    ensures Contains(cart, p) ==> |r| == |cart|
    ensures Contains(cart, p) ==> forall k :: 0 <= k < |cart| ==> r[k].productId == cart[k].productId
    ensures Contains(cart, p) ==> forall k :: 0 <= k < |cart| && cart[k].productId != p ==> r[k] == cart[k]
    ensures Contains(cart, p) ==>
              var i := Find(cart, p).value;
              && r[i].quantity == cart[i].quantity + 1
              && forall k :: 0 <= k < |cart| && k != i ==> r[k] == cart[k]
    ensures !Contains(cart, p) ==> r == cart + [NewLine(p)]
    ensures Unique(cart) ==> Unique(r)
  {
    match Find(cart, p)
    case Some(i) =>
      var r := cart[i := CartLine(p, cart[i].quantity + 1)];
      assert r[i].productId == p;
      r
    case None =>
      var r := cart + [NewLine(p)];
      assert r[|cart|].productId == p;
      r
  }

  /** `/removeCart`: keep the lines for every other product. */
  function Remove(cart: seq<CartLine>, p: ProductId): (r: seq<CartLine>)
    ensures forall l :: l in r <==> l in cart && l.productId != p
    ensures |r| <= |cart|
    ensures !Contains(cart, p) ==> r == cart
  {
    if |cart| == 0 then []
    else
      var rest := Remove(cart[1..], p);
      assert forall l :: l in cart <==> l == cart[0] || l in cart[1..];
      if cart[0].productId == p then rest
      else
        assert !Contains(cart, p) ==> !Contains(cart[1..], p);
        [cart[0]] + rest
  }

  /** `/updateCart`: overwrite the quantity of the line for `p` with `q`,
      whatever `q` is; fail when there is no such line. */
  function SetQuantity(cart: seq<CartLine>, p: ProductId, q: int): (r: Result<seq<CartLine>>)
    ensures r.Err? <==> !Contains(cart, p)
    ensures r.Err? ==> r.error == NotFoundError(CartEntry)
    ensures r.Ok? ==> |r.value| == |cart|
    ensures r.Ok? ==> forall k :: 0 <= k < |cart| ==> r.value[k].productId == cart[k].productId
    ensures r.Ok? ==> forall k :: 0 <= k < |cart| && cart[k].productId != p ==> r.value[k] == cart[k]
    ensures r.Ok? ==>
              var i := Find(cart, p).value;
              && r.value[i].quantity == q
              && forall k :: 0 <= k < |cart| && k != i ==> r.value[k] == cart[k]
    ensures r.Ok? && Unique(cart) ==> Unique(r.value)
  {
    match Find(cart, p)
    case None => Err(NotFoundError(CartEntry))
    case Some(i) => Ok(cart[i := cart[i].(quantity := q)])
  }
}
