/** The alternative register and login functions of the service layer. They take no HTTP
    request and throw plain errors; validation and password handling are left to the user
    schema, which is not part of this model. */
module AuthService {
  import opened Base
  import opened Crypto
  import opened Database
  import opened AuthController

  /** What both service functions return. The `username` given at registration is kept in
      the user's name field. */
  datatype ServiceReply = ServiceReply(id: UserId, username: string, email: string, token: Token)

  /** `registerUserService({ username, email, password })`: the password reaches the store
      exactly as given. */
  method RegisterUserService(db: Store, crypto: Primitives, username: string, email: string,
                             password: string)
    returns (r: Outcome<ServiceReply>)
    requires db.Valid()
    modifies db`users, db`nextId
    ensures db.Valid()
    ensures FindUserByEmail(old(db.users), email).Some? ==>
      && r == Thrown("User already exists")
      && db.users == old(db.users) && db.nextId == old(db.nextId)
    ensures FindUserByEmail(old(db.users), email).None? ==>
      var u := User(old(db.nextId), username, email, Plain(password));
      && db.users == old(db.users) + [u] && db.nextId == old(db.nextId) + 1
      && r == Returned(ServiceReply(u.id, username, email, crypto.sign(u.id)))
  {
    if FindUserByEmail(db.users, email).Some? {
      return Thrown("User already exists");
    }
    var u := db.CreateUser(username, email, Plain(password));
    r := Returned(ServiceReply(u.id, u.name, u.email, crypto.sign(u.id)));
  }

  /** `loginUserService({ email, password })`. `matchPassword` is the user schema's
      password check, which is not part of this model. */
  function LoginUserService(users: seq<User>, crypto: Primitives, matchPassword: (User, string) -> bool,
                            email: string, password: string)
    : (r: Outcome<ServiceReply>)
    ensures r.Thrown? ==> r == Thrown("Invalid credentials")
    ensures r.Returned? <==>
      FindUserByEmail(users, email).Some? &&
      matchPassword(users[FindUserByEmail(users, email).value], password)
    ensures r.Returned? ==>
      var u := users[FindUserByEmail(users, email).value];
      r == Returned(ServiceReply(u.id, u.name, u.email, crypto.sign(u.id)))
  {
    match FindUserByEmail(users, email)
    case None => Thrown("Invalid credentials")
    case Some(k) =>
      var u := users[k];
      if !matchPassword(u, password) then Thrown("Invalid credentials")
      else Returned(ServiceReply(u.id, u.name, u.email, crypto.sign(u.id)))
  }

  /** With a password check that is bcrypt's comparison against the stored field, the
      service login and the controller login admit exactly the same callers, for the same
      user, with the same token. */
  lemma ServiceLoginAgreesWithController(users: seq<User>, crypto: Primitives, email: string,
                                         password: string)
    ensures var service := LoginUserService(users, crypto,
                             (u: User, pw: string) => crypto.compare(pw, StoredText(u.password)), email, password);
      var controller := LoginUser(users, crypto, email, password);
      && (service.Returned? <==> controller.Ok?)
      && (service.Returned? ==>
            service.value.id == controller.value.id && service.value.token == controller.value.token)
  {
  }
}
