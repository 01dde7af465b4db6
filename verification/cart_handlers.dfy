/** `/addCart`, `/removeCart`, `/updateCart` and `/clearCart`: each loads the
    user, rewrites the cart with an operation of `Cart`, then saves the whole
    user document. A failure at any step leaves the store as it was. */
module CartHandlers {
  import opened Common
  import opened Cart
  import opened ObjectId
  import opened Users
  import CartLaws

  /** The user at `i` with its cart replaced by `cart`, saved back. */
  function SaveCart(store: Store, i: nat, cart: seq<CartLine>): (r: Response<seq<CartLine>>)
    requires i < |store|
    ensures r.result.Err? ==> r.store == store && r.result.error == StoreError
    ensures r.result.Ok? <==> SchemaValid(store[i])
    ensures r.result.Ok? ==> r.result.value == cart && r.store == store[i := store[i].(cart := cart)]
  {
    match Replace(store, i, store[i].(cart := cart))
    case Err(e) => Response(store, Err(e))
    case Ok(s) =>
      assert s == store[i := store[i].(cart := cart)];
      Response(s, Ok(cart))
  }

  /** The user at `i` is the only one changed, and only in its cart. */
  predicate OnlyCartChanged(before: Store, after: Store, i: nat)
  {
    && i < |before|
    && |after| == |before|
    && after[i] == before[i].(cart := after[i].cart)
    && forall k :: 0 <= k < |before| && k != i ==> after[k] == before[k]
  }

  lemma CartRewritePreservesConsistency(store: Store, i: nat, cart: seq<CartLine>)
    requires i < |store|
    ensures Consistent(store) && Unique(cart) && CanonicalCart(cart) ==>
              Consistent(store[i := store[i].(cart := cart)])
  {
    var after := store[i := store[i].(cart := cart)];
    assert forall k :: 0 <= k < |after| ==> after[k].id == store[k].id && after[k].email == store[k].email;
  }

  /** `/addCart` with the corrected product lookup of `ObjectId.AddRequest`.
      Both ids must be present before the user is looked up. */
  function AddCart(store: Store, userId: Option<string>, productId: Option<string>): (r: Response<seq<CartLine>>)
    ensures r.result.Err? ==> r.store == store
    ensures !Truthy(userId) || !Truthy(productId) ==> r.result == Err(ValidationError)
    ensures Truthy(userId) && Truthy(productId) && FindById(store, userId.value).None? ==>
              r.result == Err(NotFoundError(UserRecord))
    ensures r.result.Ok? ==>
              && Truthy(userId) && Truthy(productId)
              && FindById(store, userId.value).Some?
              && Cast(productId.value).Some?
              && var i := FindById(store, userId.value).value;
              && OnlyCartChanged(store, r.store, i)
              && r.result.value == r.store[i].cart
              && View(r.result.value) == View(store[i].cart)[Cast(productId.value).value := QuantityOf(View(store[i].cart), Cast(productId.value).value) + 1]
    ensures Consistent(store) && Truthy(userId) && Truthy(productId) && FindById(store, userId.value).Some? ==>
              (r.result.Ok? <==> Cast(productId.value).Some?)
    ensures Truthy(userId) && Truthy(productId) && FindById(store, userId.value).Some? && Cast(productId.value).None? ==>
              r.result == Err(StoreError)
    ensures Truthy(userId) && Truthy(productId) && FindById(store, userId.value).Some? && Cast(productId.value).Some? ==>
              && (r.result.Ok? <==> SchemaValid(store[FindById(store, userId.value).value]))
              && (r.result.Err? ==> r.result == Err(StoreError))
    ensures Consistent(store) ==> Consistent(r.store)
  {
    if !Truthy(userId) || !Truthy(productId) then Response(store, Err(ValidationError))
    else match FindById(store, userId.value)
      case None => Response(store, Err(NotFoundError(UserRecord)))
      case Some(i) =>
        match AddRequest(store[i].cart, productId.value)
        case Err(e) => Response(store, Err(e))
        case Ok(cart) =>
          CartLaws.AddView(store[i].cart, Cast(productId.value).value);
          CartRewritePreservesConsistency(store, i, cart);
          SaveCart(store, i, cart)
  }

  /** `/removeCart`, with the product looked up by its cast id. No field is
      checked up front: a missing user id finds no user, and a missing
      product id matches no line. */
  function RemoveCart(store: Store, userId: Option<string>, productId: Option<string>): (r: Response<seq<CartLine>>)
    ensures r.result.Err? ==> r.store == store
    ensures (userId.None? || FindById(store, userId.value).None?) <==> r.result == Err(NotFoundError(UserRecord))
    ensures r.result.Ok? ==>
              var i := FindById(store, userId.value).value;
              && OnlyCartChanged(store, r.store, i)
              && r.result.value == r.store[i].cart
              && (productId.None? ==> r.result.value == store[i].cart)
              && (productId.Some? ==> View(r.result.value) == View(store[i].cart) - {LookupKey(productId.value)})
              && (productId.Some? ==> !Contains(r.result.value, LookupKey(productId.value)))
    ensures Consistent(store) && userId.Some? && FindById(store, userId.value).Some? ==> r.result.Ok?
    ensures userId.Some? && FindById(store, userId.value).Some? ==>
              && (r.result.Ok? <==> SchemaValid(store[FindById(store, userId.value).value]))
              && (r.result.Err? ==> r.result == Err(StoreError))
    ensures Consistent(store) ==> Consistent(r.store)
  {
    if userId.None? then Response(store, Err(NotFoundError(UserRecord)))
    else match FindById(store, userId.value)
      case None => Response(store, Err(NotFoundError(UserRecord)))
      case Some(i) =>
        var cart := RemoveRequest(store[i].cart, productId);
        CartRewritePreservesConsistency(store, i, cart);
        SaveCart(store, i, cart)
  }

  /** `/updateCart`, with the product looked up by its cast id. The quantity
      is taken as given, with no lower bound. */
  function UpdateCart(store: Store, userId: Option<string>, productId: Option<string>, quantity: int): (r: Response<seq<CartLine>>)
    ensures r.result.Err? ==> r.store == store
    ensures (userId.None? || FindById(store, userId.value).None?) <==> r.result == Err(NotFoundError(UserRecord))
    ensures userId.Some? && FindById(store, userId.value).Some? ==>
              var i := FindById(store, userId.value).value;
              (productId.None? || !Contains(store[i].cart, LookupKey(productId.value))) <==> r.result == Err(NotFoundError(CartEntry))
    ensures Consistent(store) && userId.Some? && FindById(store, userId.value).Some? && productId.Some?
            && Contains(store[FindById(store, userId.value).value].cart, LookupKey(productId.value)) ==>
              r.result.Ok?
    ensures userId.Some? && FindById(store, userId.value).Some? && productId.Some?
            && Contains(store[FindById(store, userId.value).value].cart, LookupKey(productId.value)) ==>
              && (r.result.Ok? <==> SchemaValid(store[FindById(store, userId.value).value]))
              && (r.result.Err? ==> r.result == Err(StoreError))
    ensures r.result.Ok? ==>
              var i := FindById(store, userId.value).value;
              && productId.Some?
              && OnlyCartChanged(store, r.store, i)
              && r.result.value == r.store[i].cart
              && View(r.result.value) == View(store[i].cart)[LookupKey(productId.value) := quantity]
    ensures Consistent(store) ==> Consistent(r.store)
  {
    if userId.None? then Response(store, Err(NotFoundError(UserRecord)))
    else match FindById(store, userId.value)
      case None => Response(store, Err(NotFoundError(UserRecord)))
      case Some(i) =>
        match SetQuantityRequest(store[i].cart, productId, quantity)
          case Err(e) => Response(store, Err(e))
          case Ok(cart) =>
            CartRewritePreservesConsistency(store, i, cart);
            SaveCart(store, i, cart)
  }

  /** `/clearCart/:userId`: the cart becomes empty, whatever it held. */
  function ClearCart(store: Store, userId: string): (r: Response<seq<CartLine>>)
    ensures r.result.Err? ==> r.store == store
    ensures FindById(store, userId).None? <==> r.result == Err(NotFoundError(UserRecord))
    ensures r.result.Ok? ==>
              var i := FindById(store, userId).value;
              && OnlyCartChanged(store, r.store, i)
              && r.result.value == []
              && r.store[i].cart == []
    ensures Consistent(store) && FindById(store, userId).Some? ==> r.result.Ok?
    ensures FindById(store, userId).Some? ==>
              && (r.result.Ok? <==> SchemaValid(store[FindById(store, userId).value]))
              && (r.result.Err? ==> r.result == Err(StoreError))
    ensures Consistent(store) ==> Consistent(r.store)
  {
    match FindById(store, userId)
    case None => Response(store, Err(NotFoundError(UserRecord)))
    case Some(i) =>
      CartRewritePreservesConsistency(store, i, []);
      SaveCart(store, i, [])
  }

  /** On a consistent store, `/addCart` of a product the user's cart does not
      hold, followed by `/removeCart` with the same request id, leaves the
      store as it was (timestamps aside, which are not modelled), in whatever
      case the id is spelled. */
  lemma AddThenRemoveRestoresStore(store: Store, userId: string, productId: string)
    requires Consistent(store)
    requires userId != "" && FindById(store, userId).Some?
    requires Cast(productId).Some?
    requires !Contains(store[FindById(store, userId).value].cart, Cast(productId).value)
    ensures var added := AddCart(store, Some(userId), Some(productId));
            && added.result.Ok?
            && RemoveCart(added.store, Some(userId), Some(productId)).store == store
  {
    var i := FindById(store, userId).value;
    var cart := store[i].cart;
    var id := Cast(productId).value;
    assert productId != "";
    var added := AddCart(store, Some(userId), Some(productId));
    assert added.result.value == Add(cart, id);
    assert FindById(added.store, userId) == Some(i);
    AddThenRemoveRequest(cart, productId);
    var removed := RemoveCart(added.store, Some(userId), Some(productId));
    assert removed.store == added.store[i := added.store[i].(cart := cart)];
    assert removed.store == store;
  }
}
