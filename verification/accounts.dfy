/** The decisions of `/register`, `/login` and `/delete_account`, over the
    user collection. Password hashing and session tokens are library calls,
    passed in as functions; what the decisions rely on from them is stated
    as predicates and used only as hypotheses of lemmas. */
module Accounts {
  import opened Common
  import opened Users

  /** The payload a session token carries: the user's `_id` and email. */
  datatype Session = Session(userId: UserId, email: string)

  /** The library calls: bcrypt `hash(password, rounds, salt)` and
      `compare(password, hash)`; token `sign(payload)` and `verify(token)`
      under the server secret (None for a bad or expired token). */
  datatype Services = Services(
    hash: (string, nat, nat) -> string,
    compare: (string, string) -> bool,
    sign: Session -> string,
    verify: string -> Option<Session>)

  /** The bcrypt cost factor `/register` passes. */
  const SaltRounds: nat := 10

  /** The one account `/delete_account` refuses to delete. */
  const AdminEmail: string := "admin@gmail.com"

  /** A password always verifies against a hash made from it. */
  ghost predicate HashVerifies(svc: Services)
  {
    forall pw: string, salt: nat :: svc.compare(pw, svc.hash(pw, SaltRounds, salt))
  }

  /** A hash never equals the password it was made from. */
  ghost predicate HashHides(svc: Services)
  {
    forall pw: string, salt: nat :: svc.hash(pw, SaltRounds, salt) != pw
  }

  /** A signed token is a non-empty string that verifies to its payload. */
  ghost predicate TokensRoundTrip(svc: Services)
  {
    forall s: Session :: svc.sign(s) != "" && svc.verify(svc.sign(s)) == Some(s)
  }

  /** The body of a `/register` request. */
  datatype RegisterRequest = RegisterRequest(
    userName: Option<string>,
    email: Option<string>,
    password: Option<string>,
    phoneNumber: Option<string>,  // the body key `PhoneNumber`, as the schema spells it
    address: Option<string>,      // the body key `Address`, as the schema spells it
    image: Option<string>,
    banner: Option<string>)

  predicate HasRequiredFields(req: RegisterRequest)
  {
    Truthy(req.userName) && Truthy(req.email) && Truthy(req.password)
  }

  /** `/register`: check the required fields, refuse a known email, store the
      record with the password hashed under the fresh `_id` `newId` and the
      random `salt` the library draws. */
  function Register(store: Store, req: RegisterRequest, svc: Services, salt: nat, newId: UserId): (r: Response<User>)
    ensures r.result.Err? ==> r.store == store
    ensures !HasRequiredFields(req) <==> r.result == Err(ValidationError)
    ensures HasRequiredFields(req) && FindByEmail(store, req.email.value).Some? ==> r.result == Err(ConflictError)
    ensures r.result.Ok? ==> HasRequiredFields(req) && FindByEmail(store, req.email.value).None?
    ensures HasRequiredFields(req) && FindByEmail(store, req.email.value).None?
            && FindById(store, newId).None? && svc.hash(req.password.value, SaltRounds, salt) != "" ==>
              r.result.Ok?
    ensures HasRequiredFields(req) && FindByEmail(store, req.email.value).None? && r.result.Err? ==>
              r.result.error == StoreError
    ensures r.result.Ok? ==>
              var u := r.result.value;
              && r.store == store + [u]
              && u.id == newId
              && u.userName == req.userName.value
              && u.email == req.email.value
              && u.password == svc.hash(req.password.value, SaltRounds, salt)
              && u.phoneNumber == req.phoneNumber && u.address == req.address
              && u.image == req.image && u.banner == req.banner
              && u.cart == [] && u.savedProducts == []
    ensures Consistent(store) ==> Consistent(r.store)
  {
    if !HasRequiredFields(req) then
      Response(store, Err(ValidationError))
    else if FindByEmail(store, req.email.value).Some? then
      Response(store, Err(ConflictError))
    else
      var u := User(newId, req.userName.value, req.email.value,
                    svc.hash(req.password.value, SaltRounds, salt),
                    req.phoneNumber, req.address, req.image, req.banner, [], []);
      match Insert(store, u)
      case Err(e) => Response(store, Err(e))
      case Ok(s) =>
        assert s == store + [u];
        Response(s, Ok(u))
  }

  /** `/login`: the token for the first user with this email, if the
      password verifies against that user's hash. */
  function Login(store: Store, email: Option<string>, password: Option<string>, svc: Services): (r: Result<string>)
    ensures !Truthy(email) || !Truthy(password) ==> r == Err(ValidationError)
    ensures Truthy(email) && Truthy(password) && FindByEmail(store, email.value).None? ==>
              r == Err(AuthError(UnknownEmail))
    ensures Truthy(email) && Truthy(password) && FindByEmail(store, email.value).Some? ==>
              var u := store[FindByEmail(store, email.value).value];
              && (r.Ok? <==> svc.compare(password.value, u.password))
              && (r.Err? ==> r.error == AuthError(WrongPassword))
              && (r.Ok? ==> r.value == svc.sign(Session(u.id, u.email)))
    ensures r.Err? && r.error == AuthError(WrongPassword) ==>
              exists k :: 0 <= k < |store| && store[k].email == email.value && !svc.compare(password.value, store[k].password)
    ensures r.Ok? ==>
              exists k :: 0 <= k < |store| && store[k].email == email.value
                          && svc.compare(password.value, store[k].password)
                          && r.value == svc.sign(Session(store[k].id, store[k].email))
  {
    if !Truthy(email) || !Truthy(password) then Err(ValidationError)
    else match FindByEmail(store, email.value)
      case None => Err(AuthError(UnknownEmail))
      case Some(i) =>
        if !svc.compare(password.value, store[i].password) then Err(AuthError(WrongPassword))
        else Ok(svc.sign(Session(store[i].id, store[i].email)))
  }

  /** `/delete_account`: the cookie's token names the user, whose password
      must verify before the admin check is even reached. A missing password
      makes the hash comparison throw. */
  function DeleteAccount(store: Store, token: Option<string>, password: Option<string>, svc: Services): (r: Response<()>)
    ensures r.result.Err? ==> r.store == store
    ensures !Truthy(token) ==> r.result == Err(AuthError(NoToken))
    ensures Truthy(token) && svc.verify(token.value).None? ==> r.result == Err(AuthError(InvalidToken))
    ensures r.result.Ok? <==>
              && Truthy(token)
              && svc.verify(token.value).Some?
              && FindById(store, svc.verify(token.value).value.userId).Some?
              && password.Some?
              && var u := store[FindById(store, svc.verify(token.value).value.userId).value];
              && svc.compare(password.value, u.password)
              && u.email != AdminEmail
    ensures Truthy(token) && svc.verify(token.value).Some? && FindById(store, svc.verify(token.value).value.userId).None? ==>
              r.result == Err(NotFoundError(UserRecord))
    ensures Truthy(token) && svc.verify(token.value).Some? && FindById(store, svc.verify(token.value).value.userId).Some? ==>
              var u := store[FindById(store, svc.verify(token.value).value.userId).value];
              && (password.None? ==> r.result == Err(StoreError))
              && (password.Some? && !svc.compare(password.value, u.password) ==> r.result == Err(AuthError(WrongPassword)))
              && (password.Some? && svc.compare(password.value, u.password) && u.email == AdminEmail ==> r.result == Err(ForbiddenError))
    ensures r.result.Ok? ==> r.store == DeleteAt(store, FindById(store, svc.verify(token.value).value.userId).value)
    ensures r.result.Ok? ==> |r.store| == |store| - 1
    ensures r.result.Ok? && IdsDistinct(store) ==> FindById(r.store, svc.verify(token.value).value.userId).None?
    ensures Consistent(store) ==> Consistent(r.store)
  {
    if !Truthy(token) then Response(store, Err(AuthError(NoToken)))
    else match svc.verify(token.value)
      case None => Response(store, Err(AuthError(InvalidToken)))
      case Some(session) =>
        match FindById(store, session.userId)
        case None => Response(store, Err(NotFoundError(UserRecord)))
        case Some(i) =>
          if password.None? then Response(store, Err(StoreError))
          else if !svc.compare(password.value, store[i].password) then Response(store, Err(AuthError(WrongPassword)))
          else if store[i].email == AdminEmail then Response(store, Err(ForbiddenError))
          else Response(DeleteAt(store, i), Ok(()))
  }
}
