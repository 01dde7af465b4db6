/** How the account decisions fit together: registering then logging in,
    registering an email twice, and the order of the checks that guard
    account deletion. */
module AccountLaws {
  import opened Common
  import opened Users
  import opened Accounts

  /** The stored password is the hash of the submitted one, so it verifies
      against it; with a hiding hash it is never the plaintext. */
  lemma RegisterStoresVerifiableHash(store: Store, req: RegisterRequest, svc: Services, salt: nat, newId: UserId)
    requires Register(store, req, svc, salt, newId).result.Ok?
    ensures HashVerifies(svc) ==>
              svc.compare(req.password.value, Register(store, req, svc, salt, newId).result.value.password)
    ensures HashHides(svc) ==>
              Register(store, req, svc, salt, newId).result.value.password != req.password.value
  {
    var u := Register(store, req, svc, salt, newId).result.value;
    assert u.password == svc.hash(req.password.value, SaltRounds, salt);
  }

  /** After a successful registration, logging in with the same email and
      password succeeds, and the token names the new user. */
  lemma RegisterThenLogin(store: Store, req: RegisterRequest, svc: Services, salt: nat, newId: UserId)
    requires HashVerifies(svc)
    requires Register(store, req, svc, salt, newId).result.Ok?
    ensures var after := Register(store, req, svc, salt, newId).store;
            Login(after, req.email, req.password, svc) == Ok(svc.sign(Session(newId, req.email.value)))
    ensures TokensRoundTrip(svc) ==>
              var after := Register(store, req, svc, salt, newId).store;
              svc.verify(Login(after, req.email, req.password, svc).value) == Some(Session(newId, req.email.value))
  {
    var r := Register(store, req, svc, salt, newId);
    var u := r.result.value;
    assert FindByEmail(r.store, req.email.value) == Some(|store|);
    assert svc.compare(req.password.value, svc.hash(req.password.value, SaltRounds, salt));
  }

  /** A second registration with an email already registered is refused,
      whatever its other fields, and changes nothing. */
  lemma SecondRegistrationConflicts(store: Store, first: RegisterRequest, second: RegisterRequest,
                                    svc: Services, salt1: nat, salt2: nat, id1: UserId, id2: UserId)
    requires Register(store, first, svc, salt1, id1).result.Ok?
    requires HasRequiredFields(second) && second.email == first.email
    ensures var after := Register(store, first, svc, salt1, id1).store;
            Register(after, second, svc, salt2, id2) == Response(after, Err(ConflictError))
  {
    var after := Register(store, first, svc, salt1, id1).store;
    assert after[|store|].email == first.email.value;
    assert FindByEmail(after, second.email.value).Some?;
  }

  /** In a store of distinct emails, login succeeds exactly when some user
      has the email and the password verifies against that user's hash. */
  lemma LoginSucceedsIff(store: Store, email: string, password: string, svc: Services)
    requires EmailsDistinct(store)
    requires email != "" && password != ""
    ensures Login(store, Some(email), Some(password), svc).Ok?
        <==> exists k :: 0 <= k < |store| && store[k].email == email && svc.compare(password, store[k].password)
  {
    if exists k :: 0 <= k < |store| && store[k].email == email && svc.compare(password, store[k].password) {
      var k :| 0 <= k < |store| && store[k].email == email && svc.compare(password, store[k].password);
      var i := FindByEmail(store, email).value;
      assert i == k;
    }
  }

  /** For the admin account the password is checked first: a wrong password
      is an authentication error, a right one is forbidden; both leave the
      store as it was. */
  lemma AdminDeletionRefused(store: Store, token: string, password: string, svc: Services)
    requires token != "" && svc.verify(token).Some?
    requires FindById(store, svc.verify(token).value.userId).Some?
    requires store[FindById(store, svc.verify(token).value.userId).value].email == AdminEmail
    ensures var u := store[FindById(store, svc.verify(token).value.userId).value];
            var r := DeleteAccount(store, Some(token), Some(password), svc);
            && r.store == store
            && (svc.compare(password, u.password) ==> r.result == Err(ForbiddenError))
            && (!svc.compare(password, u.password) ==> r.result == Err(AuthError(WrongPassword)))
  {
  }

  /** Logging in and then deleting the account with the same password
      removes the user unless it is the admin. */
  lemma LoginThenDelete(store: Store, email: string, password: string, svc: Services)
    requires Consistent(store) && TokensRoundTrip(svc)
    requires Login(store, Some(email), Some(password), svc).Ok?
    ensures var token := Login(store, Some(email), Some(password), svc).value;
            var r := DeleteAccount(store, Some(token), Some(password), svc);
            && (r.result.Ok? <==> email != AdminEmail)
            && (r.result.Ok? ==> FindByEmail(r.store, email).None?)
  {
    var token := Login(store, Some(email), Some(password), svc).value;
    var i := FindByEmail(store, email).value;
    var session := Session(store[i].id, store[i].email);
    assert token == svc.sign(session);
    assert svc.verify(token) == Some(session);
    assert FindById(store, store[i].id) == Some(i);
    var r := DeleteAccount(store, Some(token), Some(password), svc);
    if r.result.Ok? {
      assert r.store == DeleteAt(store, i);
      forall k | 0 <= k < |r.store|
        ensures r.store[k].email != email
      {
        if k < i {
          assert r.store[k] == store[k];
        } else {
          assert r.store[k] == store[k + 1];
        }
      }
    }
  }
}
