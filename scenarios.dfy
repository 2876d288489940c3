/** Request sequences run against a fresh, empty store, showing what the handlers promise
    when they are used one after another. */
module Scenarios {
  import opened Base
  import opened Crypto
  import opened WatchlistSchema
  import opened Database
  import opened UserController
  import opened AuthController
  import opened AuthMiddleware

  /** Saving the same movie twice: the first save is created, the second is refused, and
      exactly one entry exists. */
  method SaveTwice(caller: UserId, movieId: int, title: string, posterPath: string, now: nat)
    returns (first: Result<Entry>, second: Result<Entry>, stored: nat)
    requires movieId != 0 && title != "" && posterPath != ""
    ensures first == Ok(201, NewEntry(caller, movieId, title, posterPath, now))
    ensures second == Err(400, "Movie already saved")
    ensures stored == 1
  {
    var db := new Store();
    first := SaveMovie(db, caller, Some(movieId), Some(title), Some(posterPath), now);
    second := SaveMovie(db, caller, Some(movieId), Some(title), Some(posterPath), now + 1);
    stored := |db.entries|;
  }

  /** Loving a saved movie twice: both calls succeed, the movie is loved, and the second
      call changes nothing. */
  method LoveTwice(caller: UserId, movieId: int, now: nat, later: nat)
    returns (first: Result<EntryReply>, second: Result<EntryReply>, unchangedBySecond: bool)
    requires movieId != 0
    ensures first.Ok? && first.value.movie.loved
    ensures second.Ok? && second.value.movie.loved
    ensures unchangedBySecond
  {
    var db := new Store();
    var saved := SaveMovie(db, caller, Some(movieId), Some("Inception"), Some("/p.jpg"), now);
    first := LoveMovie(db, caller, movieId, now);
    var between := db.entries;
    second := LoveMovie(db, caller, movieId, later);
    unchangedBySecond := db.entries == between;
  }

  /** Ratings 0 and 6 are refused; rating 3 and then 5 leaves 5. */
  method RateTwice(caller: UserId, movieId: int, now: nat)
    returns (zero: Result<EntryReply>, six: Result<EntryReply>, final: Option<int>)
    requires movieId != 0
    ensures zero == Err(400, "Rating must be between 1 and 5")
    ensures six == Err(400, "Rating must be between 1 and 5")
    ensures final == Some(5)
  {
    var db := new Store();
    var saved := SaveMovie(db, caller, Some(movieId), Some("Inception"), Some("/p.jpg"), now);
    zero := RateMovie(db, caller, movieId, Some(0), now);
    six := RateMovie(db, caller, movieId, Some(6), now);
    var r3 := RateMovie(db, caller, movieId, Some(3), now);
    var r5 := RateMovie(db, caller, movieId, Some(5), now);
    final := db.entries[0].rating;
  }

  /** Comments accumulate in order at the end of the list. */
  method CommentTwice(caller: UserId, movieId: int, now: nat)
    returns (empty: Result<EntryReply>, texts: seq<string>)
    requires movieId != 0
    ensures empty == Err(400, "Comment text is required")
    ensures texts == ["first", "second"]
  {
    var db := new Store();
    var saved := SaveMovie(db, caller, Some(movieId), Some("Inception"), Some("/p.jpg"), now);
    assert |db.entries| == 1 && db.entries[0].comments == [];
    empty := AddComment(db, caller, movieId, Some(""), now);
    var c1 := AddComment(db, caller, movieId, Some("first"), now);
    assert |db.entries| == 1 && db.entries[0].comments == [Comment("first", now)];
    var c2 := AddComment(db, caller, movieId, Some("second"), now + 1);
    var comments := db.entries[0].comments;
    assert comments == [Comment("first", now), Comment("second", now + 1)];
    texts := [comments[0].text, comments[1].text];
  }

  /** Another user's entry is invisible: loving, rating, commenting on or removing it
      answers 404 and leaves the table untouched. */
  method ForeignEntryIsNotFound(owner: UserId, other: UserId, movieId: int, now: nat)
    returns (love: Result<EntryReply>, rate: Result<EntryReply>, comment: Result<EntryReply>,
             remove: Result<string>, untouched: bool)
    requires owner != other && movieId != 0
    ensures love == Err(404, NotInWatchlist) && rate == Err(404, NotInWatchlist)
    ensures comment == Err(404, NotInWatchlist) && remove == Err(404, NotInWatchlist)
    ensures untouched
  {
    var db := new Store();
    var saved := SaveMovie(db, owner, Some(movieId), Some("Inception"), Some("/p.jpg"), now);
    var before := db.entries;
    love := LoveMovie(db, other, movieId, now);
    rate := RateMovie(db, other, movieId, Some(4), now);
    comment := AddComment(db, other, movieId, Some("mine?"), now);
    remove := RemoveMovie(db, other, movieId);
    untouched := db.entries == before;
  }

  /** Registering an email twice fails the second time; logging in with the registered
      credentials returns the new user with a token that verifies to its id. */
  method RegisterTwiceThenLogin(crypto: Primitives, salt: nat)
    returns (first: Result<AuthReply>, second: Result<AuthReply>, login: Result<AuthReply>)
    requires Sound(crypto)
    ensures first.Ok? && first.status == 201
    ensures second == Err(400, "User already exists")
    ensures login.Ok? && login.value.id == first.value.id
    ensures crypto.verify(login.value.token) == Some(first.value.id)
  {
    var db := new Store();
    first := RegisterUser(db, crypto, Some("A"), Some("a@b.com"), Some("pw"), salt);
    second := RegisterUser(db, crypto, Some("B"), Some("a@b.com"), Some("other"), salt);
    LoginAfterRegister([], crypto, 0, "A", "a@b.com", "pw", salt);
    login := LoginUser(db.users, crypto, "a@b.com", "pw");
  }

  /** The token issued at registration, sent as "Bearer <token>", passes the guard once and
      attaches the registered user. */
  method GuardAcceptsIssuedToken(crypto: Primitives, salt: nat)
    returns (calls: nat, attached: Option<PublicUser>)
    requires Sound(crypto)
    ensures calls == 1
    ensures attached == Some(PublicUser(0, "A", "a@b.com"))
  {
    var db := new Store();
    var reg := RegisterUser(db, crypto, Some("A"), Some("a@b.com"), Some("pw"), salt);
    var req := new Request(Some("Bearer " + reg.value.token));
    SignedTokenAuthorizes(crypto, db.users, 0);
    Protect(req, crypto, db.users);
    calls, attached := req.nextCalls, req.user;
  }
}
