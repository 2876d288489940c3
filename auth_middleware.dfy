/** The access guard `protect`: it reads the Authorization header, verifies the bearer token
    and attaches the user it names to the request, or rejects the request with 401. */
module AuthMiddleware {
  import opened Base
  import opened Crypto
  import opened Database

  /** JavaScript's `s.split(" ")`: the fields between single spaces, empty ones included. */
  function SplitSpaces(s: string): (r: seq<string>)
    ensures |r| >= 1
    ensures |r| == 1 <==> ' ' !in s
    ensures forall i :: 0 <= i < |r| ==> ' ' !in r[i]
  {
    if s == [] then [[]]
    else
      var rest := SplitSpaces(s[1..]);
      if s[0] == ' ' then [[]] + rest else [[s[0]] + rest[0]] + rest[1..]
  }

  lemma {:induction false} SplitWithoutSpace(t: string)
    requires ' ' !in t
    ensures SplitSpaces(t) == [t]
  {
    if t != [] {
      SplitWithoutSpace(t[1..]);
      assert [t[0]] + t[1..] == t;
    }
  }

  lemma {:induction false} SplitAtFirstSpace(w: string, t: string)
    requires ' ' !in w
    ensures SplitSpaces(w + " " + t) == [w] + SplitSpaces(t)
  {
    if w == [] {
      assert w + " " + t == [' '] + t;
      assert (w + " " + t)[1..] == t;
    } else {
      assert (w + " " + t)[1..] == w[1..] + " " + t;
      SplitAtFirstSpace(w[1..], t);
      assert [w[0]] + w[1..] == w;
    }
  }

  /** `authorization.split(" ")[1]`: the second field, or `undefined` when there is none. */
  function TokenField(authorization: string): (t: Option<string>)
    ensures t.None? <==> ' ' !in authorization
    ensures t.Some? ==> ' ' !in t.value
  {
    var fields := SplitSpaces(authorization);
    if |fields| > 1 then Some(fields[1]) else None
  }

  /** The header is present, non-empty and starts with "Bearer" (no space required). */
  predicate BearerScheme(authorization: Option<string>)
  {
    authorization.Some? && authorization.value != "" && "Bearer" <= authorization.value
  }

  /** How the guard ends for a request. */
  datatype Verdict =
    | NoToken                              // 401 "Not authorized, no token"
    | TokenFailed                          // 401 "Not authorized, token failed"
    | Authorized(user: Option<PublicUser>) // next() is called; the user may be null

  /** The user attached for a decoded id: `findById(id).select("-password")`, which is null
      when the id no longer resolves. */
  function AttachedUser(users: seq<User>, id: UserId): (u: Option<PublicUser>)
    ensures u.Some? <==> exists i :: 0 <= i < |users| && users[i].id == id
    ensures u.Some? ==> u.value.id == id
    ensures u.Some? ==> exists i :: 0 <= i < |users| && users[i].id == id && u.value == Public(users[i])
  {
    match FindUserById(users, id)
    case None => None
    case Some(k) => Some(Public(users[k]))
  }

  /** The decision `protect` takes for a header. */
  function Classify(authorization: Option<string>, crypto: Primitives, users: seq<User>): (v: Verdict)
    ensures v.NoToken? <==> !BearerScheme(authorization)
    ensures v.TokenFailed? <==>
      BearerScheme(authorization) &&
      (TokenField(authorization.value).None? || crypto.verify(TokenField(authorization.value).value).None?)
    ensures v.Authorized? ==>
      var id := crypto.verify(TokenField(authorization.value).value).value;
      v.user == AttachedUser(users, id)
  {
    if !BearerScheme(authorization) then NoToken
    else match TokenField(authorization.value)
      case None => TokenFailed
      case Some(token) =>
        match crypto.verify(token)
        case None => TokenFailed
        case Some(id) => Authorized(AttachedUser(users, id))
  }

  /** A header that is exactly "Bearer" carries no token field, so verification fails: the
      request is rejected as "token failed", not as "no token". */
  lemma BareBearerFailsVerification(crypto: Primitives, users: seq<User>)
    ensures Classify(Some("Bearer"), crypto, users) == TokenFailed
  {
  }

  /** A header "Bearer <token>" carrying a token signed for `id` passes the guard and
      attaches the user with that id, or null when no user has it. */
  lemma SignedTokenAuthorizes(crypto: Primitives, users: seq<User>, id: UserId)
    requires Sound(crypto)
    ensures Classify(Some("Bearer " + crypto.sign(id)), crypto, users) == Authorized(AttachedUser(users, id))
  {
    var token := crypto.sign(id);
    var header := "Bearer " + token;
    assert header == "Bearer" + " " + token;
    assert header[..6] == "Bearer";
    SplitAtFirstSpace("Bearer", token);
    SplitWithoutSpace(token);
    assert TokenField(header) == Some(token);
  }

  /** The parts of the Express request and response that `protect` touches. */
  class Request {
    const authorization: Option<string>
    /** `req.user`. */
    var user: Option<PublicUser>
    /** The status set with `res.status(...)`. */
    var status: Option<nat>
    /** The message of the error thrown to the error handler. */
    var error: Option<string>
    /** How many times `next()` was called. */
    var nextCalls: nat

    constructor (authorization: Option<string>)
      ensures this.authorization == authorization
      ensures user.None? && status.None? && error.None? && nextCalls == 0
    {
      this.authorization := authorization;
      user, status, error, nextCalls := None, None, None, 0;
    }
  }

  /** `protect(req, res, next)`. */
  method Protect(req: Request, crypto: Primitives, users: seq<User>)
    modifies req
    ensures Classify(req.authorization, crypto, users) == NoToken ==>
      && req.status == Some(401) && req.error == Some("Not authorized, no token")
      && req.nextCalls == old(req.nextCalls) && req.user == old(req.user)
    ensures Classify(req.authorization, crypto, users) == TokenFailed ==>
      && req.status == Some(401) && req.error == Some("Not authorized, token failed")
      && req.nextCalls == old(req.nextCalls) && req.user == old(req.user)
    ensures Classify(req.authorization, crypto, users).Authorized? ==>
      && req.user == Classify(req.authorization, crypto, users).user
      && req.nextCalls == old(req.nextCalls) + 1
      && req.status == old(req.status) && req.error == old(req.error)
  {
    if BearerScheme(req.authorization) {
      var token := TokenField(req.authorization.value);
      var decoded := if token.Some? then crypto.verify(token.value) else None;
      if decoded.Some? {
        req.user := AttachedUser(users, decoded.value);
        req.nextCalls := req.nextCalls + 1;
        return;
      }
      req.status := Some(401);
      req.error := Some("Not authorized, token failed");
      return;
    }
    req.status := Some(401);
    req.error := Some("Not authorized, no token");
  }
}
