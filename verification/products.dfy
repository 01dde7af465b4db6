/** The field check `/products` applies before creating a product. Products
    otherwise enter the model only as ids. */
module Products {
  import opened Common

  /** The fields of a `/products` body the check reads. `price` is a JSON
      number; `image` a JSON array of file names. */
  datatype ProductRequest = ProductRequest(
    name: Option<string>,
    price: Option<real>,
    image: Option<seq<string>>)

  /** `!price` is true for a missing price and for the number 0. */
  predicate PriceTruthy(price: Option<real>)
  {
    price.Some? && price.value != 0.0
  }

  /** Refuse a body without a name, a non-zero price, or at least one image. */
  function CheckCreate(req: ProductRequest): (r: Result<()>)
    ensures r.Err? ==> r.error == ValidationError
    ensures r.Err? <==> req.name.None? || req.name == Some("") || req.price.None? || req.price == Some(0.0)
                        || req.image.None? || req.image == Some([])
  {
    if !Truthy(req.name) || !PriceTruthy(req.price) || req.image.None? || |req.image.value| == 0 then
      Err(ValidationError)
    else
      Ok(())
  }
}
