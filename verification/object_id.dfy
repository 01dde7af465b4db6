/** Product ids as they travel between a request body and a stored cart line.
    A stored `productId` is an ObjectId; `toString()` renders it as 24
    lower-case hex digits. The request carries a plain string, which the
    store casts to an ObjectId when a line is pushed. */
module ObjectId {
  import opened Common
  import opened Cart
  import CartLaws

  const HexLength: nat := 24

  predicate IsHexDigit(c: char)
  {
    '0' <= c <= '9' || 'a' <= c <= 'f' || 'A' <= c <= 'F'
  }

  /** The form `toString()` produces: 24 lower-case hex digits. */
  predicate IsCanonical(s: string)
  {
    |s| == HexLength && forall i :: 0 <= i < |s| ==> '0' <= s[i] <= '9' || 'a' <= s[i] <= 'f'
  }

  /** Every line of the cart names its product in `toString()` form. */
  predicate CanonicalCart(cart: seq<CartLine>)
  {
    forall k :: 0 <= k < |cart| ==> IsCanonical(cart[k].productId)
  }

  function LowerHex(c: char): char
  {
    if 'A' <= c <= 'F' then (c as int + 32) as char else c
  }

  /** Casting a request string to an ObjectId and rendering it back: any 24
      hex digits in either case are accepted; anything else is a cast error. */
  function Cast(raw: string): (r: Option<ProductId>)
    ensures r.Some? <==> |raw| == HexLength && forall i :: 0 <= i < |raw| ==> IsHexDigit(raw[i])
    ensures r.Some? ==> IsCanonical(r.value) && |r.value| == |raw|
    ensures r.Some? ==> forall i :: 0 <= i < |raw| ==> r.value[i] == LowerHex(raw[i])
    ensures r.Some? ==> forall i :: 0 <= i < |raw| ==> r.value[i] == raw[i] || r.value[i] as int == raw[i] as int + 32
    ensures IsCanonical(raw) ==> r == Some(raw)
    ensures r.None? ==> !IsCanonical(raw)
  {
    if |raw| == HexLength && forall i :: 0 <= i < |raw| ==> IsHexDigit(raw[i]) then
      var s := seq(|raw|, i requires 0 <= i < |raw| => LowerHex(raw[i]));
      assert IsCanonical(raw) ==> s == raw by {
        if IsCanonical(raw) {
          assert forall i :: 0 <= i < |raw| ==> s[i] == raw[i];
        }
      }
      Some(s)
    else
      None
  }

  lemma CastIdempotent(raw: string)
    requires Cast(raw).Some?
    ensures Cast(Cast(raw).value) == Cast(raw)
  {
  }

  /** The `/addCart` step as written: `find` compares each stored id's
      `toString()` with the raw request string, while `push` stores the
      cast id. A failed cast makes the later `save` throw. A request that
      re-spells an id the cart already holds gets a second line for it. */
  function AddRequestAsWritten(cart: seq<CartLine>, raw: string): (r: Result<seq<CartLine>>)
    ensures IsCanonical(raw) ==> r == Ok(Add(cart, raw))
    ensures CanonicalCart(cart) ==> (r.Err? <==> Cast(raw).None?)
    ensures CanonicalCart(cart) && Cast(raw).Some? && !Contains(cart, raw) && Contains(cart, Cast(raw).value) ==>
              r.Ok? && !Unique(r.value)
  {
    if Contains(cart, raw) then Ok(Add(cart, raw))
    else match Cast(raw)
      case None => Err(StoreError)
      case Some(id) =>
        var r := cart + [NewLine(id)];
        assert Contains(cart, id) ==> !Unique(r) by {
          if Contains(cart, id) {
            var k :| 0 <= k < |cart| && cart[k].productId == id;
            assert r[k].productId == r[|cart|].productId;
          }
        }
        Ok(r)
  }

  /** An ObjectId spelled in upper case: a valid id that `toString()` never produces. */
  const UpperCaseId: string := "AAAAAAAAAAAAAAAAAAAAAAAA"

  /** The stored form of `UpperCaseId`. */
  const LowerCaseId: string := "aaaaaaaaaaaaaaaaaaaaaaaa"

  lemma UpperCaseIdCasts()
    ensures Cast(UpperCaseId) == Some(LowerCaseId)
    ensures !IsCanonical(UpperCaseId) && IsCanonical(LowerCaseId)
  {
    assert forall i :: 0 <= i < |UpperCaseId| ==> IsHexDigit(UpperCaseId[i]);
    assert Cast(UpperCaseId).Some?;
    var cast := Cast(UpperCaseId).value;
    assert |cast| == |UpperCaseId| == |LowerCaseId| == 24;
    assert forall i :: 0 <= i < |LowerCaseId| ==> cast[i] == LowerCaseId[i];
    assert cast == LowerCaseId;
    assert UpperCaseId[0] == 'A';
  }

  /** Adding `UpperCaseId` to an empty cart, as written, stores one line in
      `toString()` form. */
  lemma UpperCaseFirstAdd()
    ensures AddRequestAsWritten([], UpperCaseId) == Ok([NewLine(LowerCaseId)])
  {
    UpperCaseIdCasts();
    var empty: seq<CartLine> := [];
    assert !Contains(empty, UpperCaseId);
    assert empty + [NewLine(LowerCaseId)] == [NewLine(LowerCaseId)];
  }

  /** Adding the same upper-case id twice, as written, leaves two lines for
      one product: the invariant of at most one line per product is broken. */
  lemma AsWrittenAddDuplicatesLine()
    ensures var once := AddRequestAsWritten([], UpperCaseId);
            && once.Ok?
            && AddRequestAsWritten(once.value, UpperCaseId).Ok?
            && !Unique(AddRequestAsWritten(once.value, UpperCaseId).value)
  {
    UpperCaseFirstAdd();
    UpperCaseIdCasts();
    var once := [NewLine(LowerCaseId)];
    assert once[0].productId == LowerCaseId;
    assert Contains(once, LowerCaseId);
    assert !Contains(once, UpperCaseId) by {
      assert once[0].productId != UpperCaseId;
    }
  }

  /** `/addCart` with the lookup made consistent with the stored form: the
      request id is cast first and the cast id is looked up. */
  function AddRequest(cart: seq<CartLine>, raw: string): (r: Result<seq<CartLine>>)
    ensures r.Err? <==> Cast(raw).None?
    ensures r.Err? ==> r.error == StoreError
    ensures r.Ok? && Unique(cart) ==> Unique(r.value)
    ensures r.Ok? && CanonicalCart(cart) ==> CanonicalCart(r.value)
    ensures r.Ok? ==> Contains(r.value, Cast(raw).value)
    ensures r.Ok? ==>
              var id := Cast(raw).value;
              View(r.value) == View(cart)[id := QuantityOf(View(cart), id) + 1]
  {
    match Cast(raw)
    case None => Err(StoreError)
    case Some(id) =>
      CartLaws.AddView(cart, id);
      Ok(Add(cart, id))
  }

  /** On a cart of stored ids, the corrected `/addCart` differs from the code
      as written exactly when the request spells an id already in the cart in
      a form other than `toString()`'s. */
  lemma AddRequestDiffersOnlyOnRespelledIds(cart: seq<CartLine>, raw: string)
    requires CanonicalCart(cart)
    ensures AddRequest(cart, raw) != AddRequestAsWritten(cart, raw)
        <==> Cast(raw).Some? && !Contains(cart, raw) && Contains(cart, Cast(raw).value)
  {
    if Contains(cart, raw) {
      var k :| 0 <= k < |cart| && cart[k].productId == raw;
      assert IsCanonical(raw);
    } else if Cast(raw).Some? && Contains(cart, Cast(raw).value) {
      assert |AddRequest(cart, raw).value| == |cart|;
    }
  }

  /** The key a request id is looked up under once lookups agree with the
      stored form: its cast when it casts, else the raw string, which then
      equals no stored id. */
  function LookupKey(raw: string): (k: ProductId)
    ensures Cast(raw).Some? ==> k == Cast(raw).value
    ensures IsCanonical(raw) ==> k == raw
    ensures Cast(raw).None? ==> k == raw && !IsCanonical(raw)
  {
    match Cast(raw)
    case Some(id) => id
    case None => raw
  }

  /** The `/removeCart` filter as written: the raw request string is
      compared with each stored id's `toString()`, and a missing product id
      equals none. A request id in any other spelling removes nothing. */
  function RemoveRequestAsWritten(cart: seq<CartLine>, productId: Option<string>): (r: seq<CartLine>)
    ensures productId.None? ==> r == cart
    ensures productId.Some? ==> !Contains(r, productId.value)
    ensures productId.Some? ==> forall l :: l in r <==> l in cart && l.productId != productId.value
    ensures productId.Some? ==> View(r) == View(cart) - {productId.value}
    ensures CanonicalCart(cart) && productId.Some? && !IsCanonical(productId.value) ==> r == cart
  {
    match productId
    case None => cart
    case Some(p) =>
      CartLaws.RemovePreservesUnique(cart, p);
      CartLaws.RemoveView(cart, p);
      Remove(cart, p)
  }

  /** `/removeCart` with the lookup made consistent with the stored form. */
  function RemoveRequest(cart: seq<CartLine>, productId: Option<string>): (r: seq<CartLine>)
    ensures productId.None? ==> r == cart
    ensures productId.Some? ==>
              var key := LookupKey(productId.value);
              View(r) == View(cart) - {key} && !Contains(r, key)
    ensures forall l :: l in r ==> l in cart
    ensures Unique(cart) ==> Unique(r)
    ensures CanonicalCart(cart) ==> CanonicalCart(r)
  {
    match productId
    case None => cart
    case Some(raw) =>
      var key := LookupKey(raw);
      var r := Remove(cart, key);
      CartLaws.RemoveView(cart, key);
      CartLaws.RemovePreservesUnique(cart, key);
      assert forall k :: 0 <= k < |r| ==> r[k] in cart;
      r
  }

  /** The `/updateCart` lookup as written: a missing product id, or one in a
      spelling other than `toString()`'s, is never found. */
  function SetQuantityRequestAsWritten(cart: seq<CartLine>, productId: Option<string>, q: int): (r: Result<seq<CartLine>>)
    ensures r.Err? ==> r.error == NotFoundError(CartEntry)
    ensures productId.Some? ==> (r.Ok? <==> Contains(cart, productId.value))
    ensures CanonicalCart(cart) && (productId.None? || !IsCanonical(productId.value)) ==> r.Err?
    ensures r.Ok? ==> productId.Some? && View(r.value) == View(cart)[productId.value := q]
  {
    match productId
    case None => Err(NotFoundError(CartEntry))
    case Some(p) =>
      var r := SetQuantity(cart, p, q);
      if r.Ok? then
        CartLaws.SetQuantityView(cart, p, q);
        r
      else
        r
  }

  /** `/updateCart` with the lookup made consistent with the stored form. */
  function SetQuantityRequest(cart: seq<CartLine>, productId: Option<string>, q: int): (r: Result<seq<CartLine>>)
    ensures r.Err? <==> productId.None? || !Contains(cart, LookupKey(productId.value))
    ensures r.Err? ==> r.error == NotFoundError(CartEntry)
    ensures r.Ok? ==> View(r.value) == View(cart)[LookupKey(productId.value) := q]
    ensures r.Ok? ==> |r.value| == |cart| && forall k :: 0 <= k < |cart| ==> r.value[k].productId == cart[k].productId
    ensures r.Ok? && Unique(cart) ==> Unique(r.value)
    ensures r.Ok? && CanonicalCart(cart) ==> CanonicalCart(r.value)
  {
    match productId
    case None => Err(NotFoundError(CartEntry))
    case Some(raw) =>
      var key := LookupKey(raw);
      var r := SetQuantity(cart, key, q);
      if r.Ok? then
        CartLaws.SetQuantityView(cart, key, q);
        r
      else
        r
  }

  /** As written, adding `UpperCaseId` and then removing it by the same
      spelling leaves the line in the cart. */
  lemma UpperCaseAddThenRemoveKeepsLine()
    ensures var added := AddRequestAsWritten([], UpperCaseId);
            && added.Ok?
            && RemoveRequestAsWritten(added.value, Some(UpperCaseId)) == added.value
            && Contains(added.value, LowerCaseId)
  {
    UpperCaseFirstAdd();
    UpperCaseIdCasts();
    assert [NewLine(LowerCaseId)][0].productId == LowerCaseId;
  }

  /** As written, adding `UpperCaseId` and then updating it by the same
      spelling answers "Product not in cart". */
  lemma UpperCaseAddThenUpdateFails(q: int)
    ensures var added := AddRequestAsWritten([], UpperCaseId);
            && added.Ok?
            && SetQuantityRequestAsWritten(added.value, Some(UpperCaseId), q) == Err(NotFoundError(CartEntry))
  {
    UpperCaseFirstAdd();
    UpperCaseIdCasts();
  }

  /** With consistent lookups, adding a product the cart lacks and removing
      it by the same request id gives back the cart, for every id that casts. */
  lemma AddThenRemoveRequest(cart: seq<CartLine>, raw: string)
    requires Cast(raw).Some? && !Contains(cart, Cast(raw).value)
    ensures AddRequest(cart, raw).Ok?
    ensures RemoveRequest(AddRequest(cart, raw).value, Some(raw)) == cart
  {
    CartLaws.AddThenRemove(cart, Cast(raw).value);
  }

  /** With consistent lookups, a product just added can be updated by the
      same request id, for every id that casts. */
  lemma AddThenUpdateRequest(cart: seq<CartLine>, raw: string, q: int)
    requires Cast(raw).Some?
    ensures AddRequest(cart, raw).Ok?
    ensures SetQuantityRequest(AddRequest(cart, raw).value, Some(raw), q).Ok?
  {
  }
}
