/** The two collections the handlers work on, the user table and the watchlist table, and
    the single-document lookups the handlers issue against them (`findOne`, `findById`). */
module Database {
  import opened Base
  import opened Crypto
  import opened WatchlistSchema

  /** What a user document keeps in its password field: the text a caller handed to the
      store, or a bcrypt digest of it. */
  datatype Secret = Plain(text: string) | Hashed(digest: Digest)

  /** A user document. The user schema itself is not part of this model; these are the
      fields the handlers read and write. */
  datatype User = User(id: UserId, name: string, email: string, password: Secret)

  /** A user document read with the password field excluded (`select("-password")`). */
  datatype PublicUser = PublicUser(id: UserId, name: string, email: string)

  /** The body the register, login and profile-update handlers answer with. */
  datatype AuthReply = AuthReply(id: UserId, name: string, email: string, token: Token)

  function Public(u: User): PublicUser
  {
    PublicUser(u.id, u.name, u.email)
  }

  /** The string stored in a password field, whichever way it got there. */
  function StoredText(s: Secret): string
  {
    match s
    case Plain(t) => t
    case Hashed(d) => d
  }

  /** An entry belongs to `user` and is about `movieId`: the key every watchlist lookup uses. */
  predicate Keyed(e: Entry, user: UserId, movieId: int)
  {
    e.user == user && e.movieId == movieId
  }

  /** No two entries share a (user, movieId) key. */
  ghost predicate UniqueKeys(entries: seq<Entry>)
  {
    forall i, j :: 0 <= i < j < |entries| ==>
      entries[i].user != entries[j].user || entries[i].movieId != entries[j].movieId
  }

  /** `findOne({ user, movieId })`: the position of the first entry with that key. */
  function FindEntry(entries: seq<Entry>, user: UserId, movieId: int): (r: Option<nat>)
    ensures r.Some? ==> r.value < |entries| && Keyed(entries[r.value], user, movieId)
    ensures r.Some? ==> forall i :: 0 <= i < r.value ==> !Keyed(entries[i], user, movieId)
    ensures r.None? <==> forall i :: 0 <= i < |entries| ==> !Keyed(entries[i], user, movieId)
  {
    if |entries| == 0 then None
    else if Keyed(entries[0], user, movieId) then Some(0)
    else match FindEntry(entries[1..], user, movieId)
      case None => None
      case Some(i) => Some(i + 1)
  }

  /** `findOne({ email })`: the position of the first user with that email. */
  function FindUserByEmail(users: seq<User>, email: string): (r: Option<nat>)
    ensures r.Some? ==> r.value < |users| && users[r.value].email == email
    ensures r.Some? ==> forall i :: 0 <= i < r.value ==> users[i].email != email
    ensures r.None? <==> forall i :: 0 <= i < |users| ==> users[i].email != email
  {
    if |users| == 0 then None
    else if users[0].email == email then Some(0)
    else match FindUserByEmail(users[1..], email)
      case None => None
      case Some(i) => Some(i + 1)
  }

  /** `findById(id)`: the position of the user with that id. */
  function FindUserById(users: seq<User>, id: UserId): (r: Option<nat>)
    ensures r.Some? ==> r.value < |users| && users[r.value].id == id
    ensures r.None? <==> forall i :: 0 <= i < |users| ==> users[i].id != id
  {
    if |users| == 0 then None
    else if users[0].id == id then Some(0)
    else match FindUserById(users[1..], id)
      case None => None
      case Some(i) => Some(i + 1)
  }

  /** A user appended behind every earlier holder of other emails is what a later lookup
      of its email finds. */
  lemma {:induction false} FindAppendedUser(users: seq<User>, u: User)
    requires FindUserByEmail(users, u.email).None?
    ensures FindUserByEmail(users + [u], u.email) == Some(|users|)
  {
    if |users| > 0 {
      assert (users + [u])[1..] == users[1..] + [u];
      FindAppendedUser(users[1..], u);
    }
  }

  /** An entry appended behind entries with other keys is what a later lookup of its key
      finds. */
  lemma {:induction false} FindAppendedEntry(entries: seq<Entry>, e: Entry)
    requires FindEntry(entries, e.user, e.movieId).None?
    ensures FindEntry(entries + [e], e.user, e.movieId) == Some(|entries|)
  {
    if |entries| > 0 {
      assert (entries + [e])[1..] == entries[1..] + [e];
      FindAppendedEntry(entries[1..], e);
    }
  }

  /** The store holding both collections. Users are created with fresh ids and never
      deleted; watchlist entries are inserted, edited in place and deleted. */
  class Store {
    var users: seq<User>
    var entries: seq<Entry>
    /** The id the next created user receives. */
    var nextId: nat

    /** The store's invariant: user ids are distinct and below `nextId`, no two entries
        share a (user, movieId) key, and every entry passes the schema's validators. The
        schema declares no unique index; key uniqueness holds because the save looks the
        key up before creating, which the handlers' contracts show they preserve. Email
        uniqueness is deliberately absent: the profile update can break it. */
    ghost predicate Valid()
      reads this
    {
      && (forall i :: 0 <= i < |users| ==> users[i].id < nextId)
      && (forall i, j :: 0 <= i < j < |users| ==> users[i].id != users[j].id)
      && UniqueKeys(entries)
      && (forall i :: 0 <= i < |entries| ==> ValidEntry(entries[i]))
    }

    constructor ()
      ensures Valid() && users == [] && entries == [] && nextId == 0
    {
      users, entries, nextId := [], [], 0;
    }

    /** `User.create`: insert a user document under a fresh id and return it. */
    method CreateUser(name: string, email: string, password: Secret) returns (u: User)
      requires Valid()
      modifies this`users, this`nextId
      ensures Valid()
      ensures u == User(old(nextId), name, email, password)
      ensures users == old(users) + [u] && nextId == old(nextId) + 1
      ensures FindUserById(old(users), u.id).None?
    {
      u := User(nextId, name, email, password);
      users := users + [u];
      nextId := nextId + 1;
    }
  }
}
