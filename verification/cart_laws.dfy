/** Laws of the cart operations, stated against the map view of a cart: the
    cart as an unordered collection keyed by product. */
module CartLaws {
  import opened Common
  import opened Cart

  lemma {:induction false} ViewKeys(cart: seq<CartLine>, p: ProductId)
    ensures p in View(cart) <==> Contains(cart, p)
  {
    if |cart| > 0 {
      ViewKeys(cart[1..], p);
      if Contains(cart, p) && cart[0].productId != p {
        var i :| 0 <= i < |cart| && cart[i].productId == p;
        assert cart[1..][i - 1].productId == p;
      }
      if Contains(cart[1..], p) {
        var i :| 0 <= i < |cart[1..]| && cart[1..][i].productId == p;
        assert cart[i + 1].productId == p;
      }
    }
  }

  /** The view holds the quantity of the first line for each product. */
  lemma {:induction false} ViewFirst(cart: seq<CartLine>, p: ProductId, i: nat)
    requires i < |cart| && cart[i].productId == p
    requires forall k :: 0 <= k < i ==> cart[k].productId != p
    ensures p in View(cart) && View(cart)[p] == cart[i].quantity
  {
    if i > 0 {
      ViewFirst(cart[1..], p, i - 1);
    }
  }

  lemma {:induction false} ViewOfUpdate(cart: seq<CartLine>, p: ProductId, i: nat, v: int)
    requires i < |cart| && cart[i].productId == p
    requires forall k :: 0 <= k < i ==> cart[k].productId != p
    ensures View(cart[i := CartLine(p, v)]) == View(cart)[p := v]
  {
    var c' := cart[i := CartLine(p, v)];
    if i > 0 {
      assert c'[1..] == cart[1..][i - 1 := CartLine(p, v)];
      ViewOfUpdate(cart[1..], p, i - 1, v);
      assert cart[0].productId != p;
    } else {
      assert c'[1..] == cart[1..];
    }
  }

  lemma {:induction false} ViewOfAppend(cart: seq<CartLine>, p: ProductId, v: int)
    requires !Contains(cart, p)
    ensures View(cart + [CartLine(p, v)]) == View(cart)[p := v]
  {
    var c' := cart + [CartLine(p, v)];
    if |cart| == 0 {
      assert c'[1..] == [];
    } else {
      assert c'[1..] == cart[1..] + [CartLine(p, v)];
      ViewOfAppend(cart[1..], p, v);
      assert cart[0].productId != p;
    }
  }

  /** `add` counts one more of `p` and leaves every other product's count alone. */
  lemma AddView(cart: seq<CartLine>, p: ProductId)
    ensures View(Add(cart, p)) == View(cart)[p := QuantityOf(View(cart), p) + 1]
  {
    ViewKeys(cart, p);
    match Find(cart, p)
    case Some(i) =>
      ViewFirst(cart, p, i);
      ViewOfUpdate(cart, p, i, cart[i].quantity + 1);
    case None =>
      ViewOfAppend(cart, p, DefaultQuantity);
  }

  lemma ViewCons(head: CartLine, rest: seq<CartLine>)
    ensures View([head] + rest) == View(rest)[head.productId := head.quantity]
  {
    assert ([head] + rest)[1..] == rest;
  }

  lemma RemoveKeyAfterUpdate(m: map<ProductId, int>, k: ProductId, v: int, p: ProductId)
    ensures k != p ==> (m - {p})[k := v] == m[k := v] - {p}
    ensures k == p ==> m[k := v] - {p} == m - {p}
  {
  }

  /** `remove` drops `p` from the view and nothing else. */
  lemma {:induction false} RemoveView(cart: seq<CartLine>, p: ProductId)
    ensures View(Remove(cart, p)) == View(cart) - {p}
  {
    if |cart| > 0 {
      var head, tail := cart[0], cart[1..];
      RemoveView(tail, p);
      var rest := Remove(tail, p);
      RemoveKeyAfterUpdate(View(tail), head.productId, head.quantity, p);
      assert View(cart) == View(tail)[head.productId := head.quantity];
      if head.productId != p {
        assert Remove(cart, p) == [head] + rest;
        ViewCons(head, rest);
      } else {
        assert Remove(cart, p) == [] + rest;
        assert [] + rest == rest;
      }
    }
  }

  /** `remove` keeps at most one line per product, and leaves no line for `p`. */
  lemma {:induction false} RemovePreservesUnique(cart: seq<CartLine>, p: ProductId)
    ensures !Contains(Remove(cart, p), p)
    ensures Unique(cart) ==> Unique(Remove(cart, p))
  {
    var r := Remove(cart, p);
    if |cart| > 0 && Unique(cart) {
      var head, tail := cart[0], cart[1..];
      var rest := Remove(tail, p);
      UniqueCons(cart);
      RemovePreservesUnique(tail, p);
      if head.productId != p {
        assert r == [head] + rest;
        assert ([head] + rest)[1..] == rest;
        UniqueCons(r);
      } else {
        assert r == [] + rest;
      }
    }
  }

  /** `setQuantity` sets the count of `p` to exactly `q` and leaves the others alone. */
  lemma SetQuantityView(cart: seq<CartLine>, p: ProductId, q: int)
    requires SetQuantity(cart, p, q).Ok?
    ensures View(SetQuantity(cart, p, q).value) == View(cart)[p := q]
  {
    var i := Find(cart, p).value;
    ViewOfUpdate(cart, p, i, q);
  }

  /** `remove` keeps the surviving lines in their original order. */
  lemma {:induction false} RemoveConcat(a: seq<CartLine>, b: seq<CartLine>, p: ProductId)
    ensures Remove(a + b, p) == Remove(a, p) + Remove(b, p)
  {
    if |a| > 0 {
      assert (a + b)[0] == a[0];
      assert (a + b)[1..] == a[1..] + b;
      RemoveConcat(a[1..], b, p);
      if a[0].productId != p {
        assert [a[0]] + (Remove(a[1..], p) + Remove(b, p)) == ([a[0]] + Remove(a[1..], p)) + Remove(b, p);
      }
    } else {
      assert a + b == b;
    }
  }

  /** Adding a product the cart did not hold and then removing it gives back the cart. */
  lemma AddThenRemove(cart: seq<CartLine>, p: ProductId)
    requires !Contains(cart, p)
    ensures Remove(Add(cart, p), p) == cart
  {
    RemoveConcat(cart, [NewLine(p)], p);
    assert Remove([NewLine(p)], p) == [];
  }

  /** Two adds of a new product give one line with quantity 2, not two lines. */
  lemma AddTwice(cart: seq<CartLine>, p: ProductId)
    requires !Contains(cart, p)
    ensures Add(Add(cart, p), p) == cart + [CartLine(p, 2)]
  {
    var once := Add(cart, p);
    assert once[|cart|].productId == p;
    assert Find(once, p) == Some(|cart|);
  }

  /** Setting the same quantity twice has the effect of setting it once. */
  lemma SetQuantityIdempotent(cart: seq<CartLine>, p: ProductId, q: int)
    requires SetQuantity(cart, p, q).Ok?
    ensures SetQuantity(SetQuantity(cart, p, q).value, p, q) == SetQuantity(cart, p, q)
  {
    var i := Find(cart, p).value;
    var once := SetQuantity(cart, p, q).value;
    assert Find(once, p) == Some(i);
    assert once[i := once[i].(quantity := q)] == once;
  }

  lemma UniqueCons(cart: seq<CartLine>)
    requires |cart| > 0
    ensures Unique(cart) <==> !Contains(cart[1..], cart[0].productId) && Unique(cart[1..])
  {
    var tail := cart[1..];
    if !Contains(tail, cart[0].productId) && Unique(tail) {
      forall i, j | 0 <= i < |cart| && 0 <= j < |cart| && cart[i].productId == cart[j].productId
        ensures i == j
      {
        if i > 0 && j > 0 {
          assert tail[i - 1].productId == tail[j - 1].productId;
        }
      }
    }
  }

  /** A cart has at most one line per product exactly when its map view has
      as many entries as the cart has lines. */
  lemma {:induction false} UniqueIffViewSize(cart: seq<CartLine>)
    ensures |View(cart)| <= |cart|
    ensures Unique(cart) <==> |View(cart)| == |cart|
  {
    if |cart| > 0 {
      var tail := cart[1..];
      UniqueIffViewSize(tail);
      UniqueCons(cart);
      ViewKeys(tail, cart[0].productId);
      if cart[0].productId in View(tail) {
        assert View(cart).Keys == View(tail).Keys;
      } else {
        assert View(cart).Keys == View(tail).Keys + {cart[0].productId};
      }
    }
  }
}
