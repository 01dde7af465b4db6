/** The user collection: records of the `UserName` schema in a sequence, and
    the three ways the handlers write it: insert a new document, save a
    loaded one, delete one. Lookups take the first match in sequence order,
    an abstraction of `findOne`, whose scan order is not specified. */
module Users {
  import opened Common
  import opened Cart
  import ObjectId
  import Lookup

  type UserId = string

  /** A user document. Timestamps are not modelled. */
  datatype User = User(
    id: UserId,
    userName: string,
    email: string,
    password: string,             // the stored hash
    phoneNumber: Option<string>,  // optional schema path `PhoneNumber`
    address: Option<string>,      // optional schema path `Address`
    image: Option<string>,        // optional upload file name
    banner: Option<string>,       // optional upload file name
    cart: seq<CartLine>,
    savedProducts: seq<CartLine>)

  /** The schema's `required: true` fields; the store's validation refuses a
      missing or empty required string. */
  predicate SchemaValid(u: User)
  {
    u.userName != "" && u.email != "" && u.password != ""
  }

  type Store = seq<User>

  /** What a handler leaves behind: the store after it, and its answer. */
  datatype Response<+T> = Response(store: Store, result: Result<T>)

  /** `findById`: the document with this `_id`, if any. */
  function FindById(store: Store, id: UserId): (r: Option<nat>)
    ensures r.None? <==> forall k :: 0 <= k < |store| ==> store[k].id != id
    ensures r.Some? ==> r.value < |store| && store[r.value].id == id
    ensures r.Some? ==> forall k :: 0 <= k < r.value ==> store[k].id != id
  {
    Lookup.FirstMatch(store, (u: User) => u.id == id)
  }

  /** `findOne({ email })`: the first document with this email, if any. */
  function FindByEmail(store: Store, email: string): (r: Option<nat>)
    ensures r.None? <==> forall k :: 0 <= k < |store| ==> store[k].email != email
    ensures r.Some? ==> r.value < |store| && store[r.value].email == email
    ensures r.Some? ==> forall k :: 0 <= k < r.value ==> store[k].email != email
  {
    Lookup.FirstMatch(store, (u: User) => u.email == email)
  }

  /** `_id` is unique: the store's primary key. */
  predicate IdsDistinct(store: Store)
  {
    forall i, j :: 0 <= i < |store| && 0 <= j < |store| && store[i].id == store[j].id ==> i == j
  }

  /** No two users share an email. The schema does not enforce this; only the
      lookup in `/register` does. */
  predicate EmailsDistinct(store: Store)
  {
    forall i, j :: 0 <= i < |store| && 0 <= j < |store| && store[i].email == store[j].email ==> i == j
  }

  /** Well-formed stored user: valid by the schema, cart of stored ids with at
      most one line per product. */
  predicate WellFormedUser(u: User)
  {
    SchemaValid(u) && Unique(u.cart) && ObjectId.CanonicalCart(u.cart)
  }

  /** What the modelled handlers keep true of the whole collection. */
  predicate Consistent(store: Store)
  {
    && IdsDistinct(store)
    && EmailsDistinct(store)
    && forall k :: 0 <= k < |store| ==> WellFormedUser(store[k])
  }

  /** `new UserName(doc).save()`: validation, then an insert that the store
      refuses when the `_id` is taken. */
  function Insert(store: Store, u: User): (r: Result<Store>)
    ensures r.Ok? <==> SchemaValid(u) && FindById(store, u.id).None?
    ensures r.Err? ==> r.error == StoreError
    ensures r.Ok? ==> |r.value| == |store| + 1 && r.value[|store|] == u
    ensures r.Ok? ==> forall k :: 0 <= k < |store| ==> r.value[k] == store[k]
    ensures r.Ok? && IdsDistinct(store) ==> IdsDistinct(r.value)
  {
    if SchemaValid(u) && FindById(store, u.id).None? then Ok(store + [u]) else Err(StoreError)
  }

  /** `user.save()` on a document loaded from position `i`: validation, then
      the whole document is written back. */
  function Replace(store: Store, i: nat, u: User): (r: Result<Store>)
    requires i < |store|
    ensures r.Ok? <==> SchemaValid(u)
    ensures r.Err? ==> r.error == StoreError
    ensures r.Ok? ==> |r.value| == |store| && r.value[i] == u
    ensures r.Ok? ==> forall k :: 0 <= k < |store| && k != i ==> r.value[k] == store[k]
  {
    if SchemaValid(u) then Ok(store[i := u]) else Err(StoreError)
  }

  /** `user.deleteOne()` on the document at position `i`. */
  function DeleteAt(store: Store, i: nat): (r: Store)
    requires i < |store|
    ensures |r| == |store| - 1
    ensures forall k :: 0 <= k < |r| ==> r[k] == (if k < i then store[k] else store[k + 1])
    ensures IdsDistinct(store) ==> FindById(r, store[i].id).None?
    ensures Consistent(store) ==> Consistent(r)
  {
    store[..i] + store[i + 1..]
  }

  const SampleId1: string := "000000000000000000000001"
  const SampleId2: string := "000000000000000000000002"

  /** Nothing in the schema keeps emails apart: two valid users with one
      email both pass validation and are both stored. */
  lemma SchemaAllowsSharedEmail()
    ensures var a := User(SampleId1, "a", "a@x.com", "h1", None, None, None, None, [], []);
            var b := User(SampleId2, "b", "a@x.com", "h2", None, None, None, None, [], []);
            var first := Insert([], a);
            && first.Ok?
            && Insert(first.value, b).Ok?
            && !EmailsDistinct(Insert(first.value, b).value)
  {
    var a := User(SampleId1, "a", "a@x.com", "h1", None, None, None, None, [], []);
    var b := User(SampleId2, "b", "a@x.com", "h2", None, None, None, None, [], []);
    assert SampleId1 != SampleId2 by { assert SampleId1[23] != SampleId2[23]; }
    var empty: Store := [];
    assert FindById(empty, a.id).None?;
    assert empty + [a] == [a];
    var first := Insert(empty, a);
    assert first == Ok([a]);
    assert FindById([a], b.id).None?;
    assert [a] + [b] == [a, b];
    var second := Insert(first.value, b);
    assert second == Ok([a, b]);
    assert second.value[0].email == second.value[1].email;
  }
}
