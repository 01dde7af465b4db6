# Cart manager and account decisions of an e-commerce backend

This project models the part of a small Express/MongoDB e-commerce backend
that has logic of its own:

- the **per-user cart**. Each cart handler loads a user, rewrites the user's
  `cart`, and saves the whole user document. The cart is a sequence of
  `(productId, quantity)` lines. The handlers are meant to keep at most one
  line per product; the storage layer does not enforce it, and `/addCart` as
  written can break it (see Findings).
- the **account decisions** of `/register`, `/login` and `/delete_account`.

The model is functional. A cart is a `seq<CartLine>`. The user collection is
a `seq<User>`. Lookups take the first matching document in that sequence.
This is an abstraction: MongoDB does not promise that `findOne` scans in
insertion order, and the model does not claim it does. Every
handler is a pure function from the store and the request to a
`Response(store, result)`. When a handler fails, the store it returns is the
store it was given.

The model is split into these modules:

- `Common`: `Option`, `Result`, the error kinds the handlers answer with, and
  the JavaScript truthiness test (`!field`) applied to request fields.
- `Lookup`: `FirstMatch`, the first-match search behind `Array.prototype.find`,
  `findOne` and `findById`.
- `Cart`: the cart line (quantity defaults to 1) and the invariant `Unique`.
  It also holds the pure operations `Add`, `Remove` and `SetQuantity`, and
  `View`, which reads the cart as a map from product to quantity.
- `CartLaws`: each operation proved against the map view, plus the
  round-trip and idempotence laws.
- `ObjectId`: a product id as the request spells it versus how a stored line
  renders it. A stored id renders as 24 lower-case hex digits. The module
  holds the finding below and its correction.
- `Users`: the `UserName` schema record and its required fields. Also the
  lookups, and the three ways a document is written: insert, save and delete.
  `savedProducts` uses the same `CartLine` type as `cart`, with the same
  default quantity.
- `Accounts`, `AccountLaws`: registration, login and account deletion. bcrypt
  and the token library are parameters (`Services`). The properties the
  decisions rely on from them (`HashVerifies`, `HashHides`,
  `TokensRoundTrip`) appear only as lemma hypotheses.
- `CartHandlers`: `/addCart`, `/removeCart`, `/updateCart` and `/clearCart`
  over the store. The first three use the corrected product lookups of
  `ObjectId` (see Findings).
- `Products`: the field check of `/products`.

Two points about the code that the model keeps:

- `/updateCart` writes any number it receives as the quantity, with no lower
  bound, so `SetQuantity` takes any `int`.
- Registration fails not only on missing fields or a known email but also
  when the store refuses the insert. In the model that happens when the
  record fails validation or its `_id` is taken.

## Model

| member | source | states |
|---|---|---|
| Lookup.FirstMatch | server.js:332 | the index returned is the first element that matches; None exactly when no element matches |
| Cart.Find | server.js:393-395 | `find` on a cart: None iff no line has the product; otherwise the first such line, and in a cart with one line per product the only one |
| Cart.Add | server.js:332-338 | a present product keeps the cart length and every product id; only that product's line changes, and its quantity rises by exactly 1. An absent product is appended as one line with quantity 1. One line per product is preserved |
| Cart.Remove | server.js:373-375 | keeps exactly the lines of other products, and never adds any; removing an absent product returns the cart unchanged |
| CartLaws.RemovePreservesUnique | server.js:373-375 | after remove no line for the product is left, and one line per product is preserved |
| Cart.SetQuantity | server.js:393-401 | fails with "Product not in cart" iff there is no line for the product. Otherwise the length and all product ids are kept, only that line changes, and its quantity becomes exactly the given value, with no lower bound |
| CartLaws.AddView | server.js:332-338 | as a map from product to quantity, add raises the product's count by 1 (from 0 when absent) and leaves every other product's count unchanged |
| CartLaws.RemoveView | server.js:373-375 | as a map, remove deletes exactly the product's key |
| CartLaws.SetQuantityView | server.js:393-401 | as a map, a successful setQuantity maps the product to exactly the given quantity and changes no other product |
| CartLaws.ViewFirst | server.js:332 | the map view holds the quantity of the first line for a product, which is the line `find` returns |
| CartLaws.RemoveConcat | server.js:373-375 | remove distributes over concatenation, so surviving lines keep their original order |
| CartLaws.AddThenRemove | server.js:332-375 | adding a product the cart did not hold and then removing it gives back the original cart |
| CartLaws.AddTwice | server.js:332-338 | adding a new product twice yields one line with quantity 2, not two lines |
| CartLaws.SetQuantityIdempotent | server.js:393-401 | setting the same quantity again changes nothing further |
| CartLaws.UniqueIffViewSize | server.js:332-338 | the map view never has more entries than the cart has lines; it has exactly as many iff there is at most one line per product |
| ObjectId.Cast | models/Register.js:32 | a request id casts iff it has exactly 24 characters, each a hex digit in either case; the result is, character by character, the lower-case form; a lower-case id casts to itself |
| ObjectId.CastIdempotent | models/Register.js:32 | casting the rendered form of a cast id gives the same id |
| ObjectId.AddRequestAsWritten | server.js:332-338 | as written: for an id already in stored form it is the plain add; on a cart of stored ids it fails iff the id does not cast; an id that re-spells one the cart holds leaves two lines for one product |
| ObjectId.AsWrittenAddDuplicatesLine | server.js:332-338 | adding an upper-case id twice, as written, leaves two lines for one product |
| ObjectId.AddRequest | server.js:332-338 | corrected add: fails iff the id does not cast; on success the cast id's count in the map view rises by exactly 1 and no other count changes; one line per product is preserved, and lines keep the stored id form |
| ObjectId.LookupKey | server.js:374 | the key a request id is looked up under: its cast when it casts, itself when already in stored form, and otherwise a string no stored id equals |
| ObjectId.RemoveRequestAsWritten | server.js:373-375 | as written: a missing id removes nothing; otherwise exactly the lines of other products survive, so the request string's key leaves the map view; on a cart of stored ids, a request id not in stored form removes nothing |
| ObjectId.UpperCaseAddThenRemoveKeepsLine | server.js:332-375 | as written, adding an upper-case id and removing it by the same spelling leaves the line in the cart |
| ObjectId.RemoveRequest | server.js:373-375 | corrected remove: a missing id removes nothing; otherwise exactly the lookup key leaves the map view; no line is added; one line per product and the stored id form are preserved |
| ObjectId.AddThenRemoveRequest | server.js:332-375 | with the corrected lookups, adding a product the cart lacks and removing it by the same request id gives back the cart, for every id that casts |
| ObjectId.SetQuantityRequestAsWritten | server.js:393-401 | as written: a present id succeeds iff some line has exactly that string as its id, and then the view maps it to the quantity; on a cart of stored ids, a missing id or one not in stored form answers "Product not in cart" |
| ObjectId.UpperCaseAddThenUpdateFails | server.js:332-399 | as written, adding an upper-case id and updating it by the same spelling answers "Product not in cart" |
| ObjectId.SetQuantityRequest | server.js:393-401 | corrected update: "Product not in cart" iff the id is missing or no line has its lookup key; on success the view maps the key to exactly the quantity, and ids, length, one line per product and the stored form are kept |
| ObjectId.AddThenUpdateRequest | server.js:332-401 | with the corrected lookups, a product just added can be updated by the same request id, for every id that casts |
| ObjectId.AddRequestDiffersOnlyOnRespelledIds | server.js:332-338 | on a cart of stored ids, the correction differs from the code as written iff the request re-spells an id already in the cart |
| Users.FindById | server.js:328 | returns the first document with this id; None iff no document has it |
| Users.FindByEmail | server.js:113 | returns the first document with this email; None iff no document has it |
| Users.Insert | models/Register.js:4-23 | an insert succeeds iff the required userName, email and password are non-empty and the `_id` is free. It appends exactly that record, leaves the earlier records alone, and keeps ids distinct |
| Users.Replace | server.js:340 | a save succeeds iff the record passes the schema's required fields; it changes only that position |
| Users.DeleteAt | server.js:244 | deleting removes exactly one record, keeps the others in order, leaves no record with that id, and preserves consistency |
| Users.SchemaAllowsSharedEmail | models/Register.js:8-11 | two valid users with one email are both stored: the schema does not make email unique |
| Accounts.Register | server.js:107-126 | a missing userName, email or password is rejected (iff); a known email is a conflict; a failure changes nothing. With the fields present, the email and the new id free and a non-empty hash, it succeeds; with the fields present and the email free, the only possible failure is the store error. Success appends exactly one record: the fields given, the optional profile fields copied, the password hashed with cost 10, empty carts. A consistent store stays consistent |
| Accounts.Login | server.js:129-156 | missing fields are rejected and an unknown email is refused. For a known email, login succeeds iff the password verifies against that user's hash, and otherwise answers wrong password. The token issued names exactly the user whose hash was checked, the first with that email |
| Accounts.DeleteAccount | server.js:224-259 | no token and an invalid token are refused; a token naming no stored user is not-found. Deletion succeeds iff the token names a stored user, a password is given, it verifies, and the email is not admin@gmail.com. For a stored user, a missing password is the store error of the rejected compare, a wrong password is refused as wrong password whoever the user is, and a right password for the admin is forbidden. Success removes exactly the user the token names; failure changes nothing |
| AccountLaws.RegisterStoresVerifiableHash | server.js:116-117 | the stored password verifies against the submitted one, and with a hiding hash it is never the plaintext |
| AccountLaws.RegisterThenLogin | server.js:107-143 | after a registration, logging in with the same email and password succeeds, and the token decodes to the new user's id and email |
| AccountLaws.SecondRegistrationConflicts | server.js:113-114 | a second registration with a registered email is a conflict, whatever its other fields, and the store is unchanged |
| AccountLaws.LoginSucceedsIff | server.js:132-141 | with distinct emails, login succeeds iff some user has the email and the password verifies against that user's hash |
| AccountLaws.AdminDeletionRefused | server.js:238-255 | for the admin, a wrong password gives the authentication error and a right one gives forbidden; the store is unchanged either way |
| AccountLaws.LoginThenDelete | server.js:129-259 | deleting with the token from a login and the same password succeeds iff the email is not the admin's, and afterwards no user has that email |
| CartHandlers.SaveCart | server.js:340 | saving a rewritten cart succeeds iff the loaded user passes the schema check; it changes only that user's cart |
| CartHandlers.AddCart | server.js:320-347 | a missing id fails before the lookup and an unknown user is not-found, with the store unchanged. On success only that user's cart changes, and its map view gains exactly one of the product. On a consistent store, success iff the product id casts; a known user with an id that does not cast gets the store error of the failed save; for one that casts, the call succeeds iff the user's document passes the schema check on save, and otherwise is the store error. Consistency is preserved |
| CartHandlers.RemoveCart | server.js:366-383 | a missing or unknown user is not-found iff, with the store unchanged. On success only that cart changes; the product's lookup key leaves its map view, and a missing product id leaves the cart as it was. For a known user it succeeds iff the user's document passes the schema check on save, and otherwise is the store error; so it always succeeds on a consistent store |
| CartHandlers.UpdateCart | server.js:386-409 | unknown user is not-found; "Product not in cart" iff the user exists and the product id is missing or no line has its lookup key; for a present line it succeeds iff the user's document passes the schema check on save, and otherwise is the store error, so on a consistent store a present line is always updated; on success only that cart changes and its view maps the key to exactly the quantity given |
| CartHandlers.ClearCart | server.js:412-425 | an unknown user is not-found iff, with the store unchanged. For a known user it succeeds iff the user's document passes the schema check on save, and otherwise is the store error; on success the cart is empty whatever it held, and nothing else changes |
| CartHandlers.AddThenRemoveRestoresStore | server.js:320-383 | `/addCart` of a product the user lacks, then `/removeCart` with the same request id, leaves the whole store as it was (timestamps aside, which are not modelled), for every id that casts |
| Products.CheckCreate | server.js:60-62 | a product body is refused iff the name is missing or empty, the price is missing or 0, or the image list is missing or empty |

## Findings

| source | as written | input that shows it | evidently intended | confidence | as-written member | corrected member |
|---|---|---|---|---|---|---|
| server.js:332-338 | `find` compares each stored id's `toString()` (lower-case hex) with the raw request string. `push` stores the request string cast to an ObjectId, and the cast accepts upper-case hex. An id the cart holds, spelled in upper case, is never found and is pushed again | `/addCart` twice with `productId` = `AAAAAAAAAAAAAAAAAAAAAAAA` on an empty cart gives two lines for the same product | the same product always maps to the same line: compare the cast id | medium, not executed | ObjectId.AddRequestAsWritten, ObjectId.AsWrittenAddDuplicatesLine | ObjectId.AddRequest |
| server.js:373-375, server.js:393-399 | `/removeCart` and `/updateCart` compare each stored id's `toString()` with the raw request string, so a line added by an upper-case request id is never matched by that same id | `/addCart` then `/removeCart` with `productId` = `AAAAAAAAAAAAAAAAAAAAAAAA` on an empty cart leaves the line; `/updateCart` with that id answers "Product not in cart" | removing or updating by the id a product was added with finds its line: compare the cast id | medium, not executed | ObjectId.RemoveRequestAsWritten, ObjectId.UpperCaseAddThenRemoveKeepsLine, ObjectId.SetQuantityRequestAsWritten, ObjectId.UpperCaseAddThenUpdateFails | ObjectId.RemoveRequest, ObjectId.AddThenRemoveRequest, ObjectId.SetQuantityRequest, ObjectId.AddThenUpdateRequest |

## Left out

- HTTP routing, status codes, JSON response shapes, CORS and cookie attributes.
  Handlers return an error kind; the session cookie is an optional token
  string passed in.
- Persistence beyond an in-memory sequence: store failures other than a
  failed validation or a taken `_id`, and the populated read of
  `/getCart/:userId` (a read with no cart logic).
- bcrypt salting and hashing, and token signing and verification, are
  function parameters. Token expiry after one day is not modelled; an expired
  token is one that `verify` refuses.
- File uploads, the image and banner endpoints, and the clock-based file
  names: file-system I/O.
- `/user`, `/user/update` and `/logout`. They are a token lookup, a generic
  merge of body keys, and a cookie overwrite, with no logic of their own.
- Product update, list and delete, and the product schema's defaults. These
  are plain store calls; products appear only as ids.
- The `createdAt` and `updatedAt` timestamps the schema adds
  (models/Register.js:43). Every save (server.js:340, 377, 403, 418) also
  sets `updatedAt`, so "only that user's cart changes" and the add-then-remove
  round trip hold for every field except `updatedAt`.
- Interleaving of concurrent requests. Each handler runs as one step on the
  store, so the lost-update race is not represented.
- Casting of user ids. `findById` casts the id it is given (server.js:328,
  370, 390, 414). So the source finds a stored user by an upper-case spelling
  of its id, and answers a malformed id with a cast error (500). The model
  compares user ids as strings: an upper-case spelling of a stored id is
  not-found, and so is a malformed id.
- Product ids: only the 24-hex-digit string form casts. Other forms a library
  version may accept are treated as cast failures.
- CartHandlers.AddCart: models the corrected `/addCart`. Its "consistency is
  preserved" does not hold of the code as written, which can store two lines
  for one product (first row of Findings).
- CartHandlers.RemoveCart, CartHandlers.UpdateCart,
  CartHandlers.AddThenRemoveRestoresStore: model the corrected lookups. The
  code as written does not remove or update a line by an upper-case spelling
  of its id (second row of Findings).
- Request fields of other JSON types (numbers in string fields, strings in
  number fields). In `/updateCart` a missing or non-numeric `quantity` is not
  modelled. Quantities are unbounded integers, not floating-point numbers.
- Keys of a `/register` body beyond the modelled fields. Mongoose's default
  strict mode drops keys that are not schema paths, but a body that names a
  schema path such as `cart`, `savedProducts` or `_id` has it copied into the
  new document. The model starts every new user with empty `cart` and
  `savedProducts` and takes the new id as a parameter.
- Cart lines without a `productId` cannot arise through the modelled
  handlers, and are not modelled.
