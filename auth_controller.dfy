/** Registration, login and "who am I" over the user table. */
module AuthController {
  import opened Base
  import opened Crypto
  import opened Database
  import opened AuthMiddleware
  import opened UserController

  const InvalidLogin := "Invalid email or password"

  /** `!name || !email || !password`. */
  predicate RegistrationComplete(name: Option<string>, email: Option<string>, password: Option<string>)
  {
    Present(name) && Present(email) && Present(password)
  }

  /** POST /auth/register. The salt is the one bcrypt.genSalt would draw. */
  method RegisterUser(db: Store, crypto: Primitives, name: Option<string>, email: Option<string>,
                      password: Option<string>, salt: nat)
    returns (r: Result<AuthReply>)
    requires db.Valid()
    modifies db`users, db`nextId
    ensures db.Valid()
    ensures !RegistrationComplete(name, email, password) ==>
      && r == Err(400, "Please provide name, email, and password")
      && db.users == old(db.users) && db.nextId == old(db.nextId)
    ensures RegistrationComplete(name, email, password) &&
            FindUserByEmail(old(db.users), email.value).Some? ==>
      && r == Err(400, "User already exists")
      && db.users == old(db.users) && db.nextId == old(db.nextId)
    ensures RegistrationComplete(name, email, password) &&
            FindUserByEmail(old(db.users), email.value).None? ==>
      var u := User(old(db.nextId), name.value, email.value, Hashed(crypto.hash(password.value, salt)));
      && db.users == old(db.users) + [u] && db.nextId == old(db.nextId) + 1
      && r == Ok(201, AuthReply(u.id, u.name, u.email, crypto.sign(u.id)))
    ensures r.Ok? ==> FindUserByEmail(db.users, email.value) == Some(|old(db.users)|)
  {
    if !RegistrationComplete(name, email, password) {
      return Err(400, "Please provide name, email, and password");
    }
    if FindUserByEmail(db.users, email.value).Some? {
      return Err(400, "User already exists");
    }
    ghost var before := db.users;
    var digest := crypto.hash(password.value, salt);
    var u := db.CreateUser(name.value, email.value, Hashed(digest));
    FindAppendedUser(before, u);
    r := Ok(201, AuthReply(u.id, u.name, u.email, crypto.sign(u.id)));
  }

  /** POST /auth/login: an unknown email and a wrong password get the same answer. */
  function LoginUser(users: seq<User>, crypto: Primitives, email: string, password: string)
    : (r: Result<AuthReply>)
    ensures r.Err? ==> r == Err(401, InvalidLogin)
    ensures r.Ok? <==>
      FindUserByEmail(users, email).Some? &&
      crypto.compare(password, StoredText(users[FindUserByEmail(users, email).value].password))
    ensures r.Ok? ==>
      var u := users[FindUserByEmail(users, email).value];
      r == Ok(200, AuthReply(u.id, u.name, u.email, crypto.sign(u.id)))
  {
    match FindUserByEmail(users, email)
    case None => Err(401, InvalidLogin)
    case Some(k) =>
      var u := users[k];
      if !crypto.compare(password, StoredText(u.password)) then Err(401, InvalidLogin)
      else Ok(200, AuthReply(u.id, u.name, u.email, crypto.sign(u.id)))
  }

  /** Logging in with the credentials just registered succeeds, and the token it returns
      verifies back to the new user's id. */
  lemma LoginAfterRegister(users: seq<User>, crypto: Primitives, id: UserId, name: string,
                           email: string, password: string, salt: nat)
    requires Sound(crypto)
    requires FindUserByEmail(users, email).None?
    ensures var registered := users + [User(id, name, email, Hashed(crypto.hash(password, salt)))];
      && LoginUser(registered, crypto, email, password) == Ok(200, AuthReply(id, name, email, crypto.sign(id)))
      && crypto.verify(LoginUser(registered, crypto, email, password).value.token) == Some(id)
  {
    FindAppendedUser(users, User(id, name, email, Hashed(crypto.hash(password, salt))));
  }

  /** Once an email is registered, registering it again is refused, whatever the other
      fields: two registrations with one email never both succeed. */
  lemma RegisteredEmailIsTaken(users: seq<User>, u: User)
    ensures FindUserByEmail(users + [u], u.email).Some?
  {
    assert (users + [u])[|users|] == u;
  }

  /** After a profile update that sets a new password, logging in with that password and
      the email the update leaves on the record succeeds and answers for the same user,
      provided no earlier user holds that email. */
  lemma LoginAfterPasswordChange(users: seq<User>, crypto: Primitives, k: nat,
                                 name: Option<string>, email: Option<string>, password: string,
                                 salt: nat)
    requires Sound(crypto) && k < |users|
    requires password != ""
    requires var u := UpdatedUser(users[k], name, email, Some(password), crypto, salt);
      FindUserByEmail(users[k := u], u.email) == Some(k)
    ensures var u := UpdatedUser(users[k], name, email, Some(password), crypto, salt);
      LoginUser(users[k := u], crypto, u.email, password) ==
        Ok(200, AuthReply(users[k].id, u.name, u.email, crypto.sign(users[k].id)))
  {
  }

  /** GET /auth/me: the user the guard attached, unchanged (possibly null). */
  function GetMe(attached: Option<PublicUser>): (r: Result<Option<PublicUser>>)
    ensures r.Ok? && r.status == 200 && r.value == attached
  {
    Ok(200, attached)
  }

  /** A request carrying a freshly issued token reaches `getMe` with the registered user,
      password excluded. */
  lemma MeWithIssuedToken(users: seq<User>, crypto: Primitives, k: nat)
    requires Sound(crypto) && k < |users|
    requires forall i :: 0 <= i < |users| && i != k ==> users[i].id != users[k].id
    ensures var v := Classify(Some("Bearer " + crypto.sign(users[k].id)), crypto, users);
      v.Authorized? && GetMe(v.user) == Ok(200, Some(Public(users[k])))
  {
    SignedTokenAuthorizes(crypto, users, users[k].id);
    assert FindUserById(users, users[k].id) == Some(k);
  }
}
