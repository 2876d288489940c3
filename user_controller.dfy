/** The watchlist and profile handlers. Every one of them runs behind the access guard and
    receives the caller's id from it; every watchlist query filters on that id. */
module UserController {
  import opened Base
  import opened Crypto
  import opened WatchlistSchema
  import opened Database

  const NotInWatchlist := "Movie not found in your watchlist"

  // ---------------------------------------------------------------------------------------
  // Title search: plain text, ASCII case folding

  function Lower(c: char): char
  {
    if 'A' <= c <= 'Z' then (c as int - 'A' as int + 'a' as int) as char else c
  }

  function LowerAll(s: string): (r: string)
    ensures |r| == |s|
  {
    seq(|s|, i requires 0 <= i < |s| => Lower(s[i]))
  }

  /** `pattern` occurs in `text` at `at`, ignoring ASCII case. */
  predicate OccursAt(text: string, pattern: string, at: nat)
  {
    at + |pattern| <= |text| && LowerAll(text[at..at + |pattern|]) == LowerAll(pattern)
  }

  /** The case-insensitive title match of the listing, with the search term read as plain
      text. */
  predicate ContainsIgnoringCase(text: string, pattern: string): (b: bool)
    ensures pattern == [] ==> b
    ensures |pattern| > |text| ==> !b
  {
    assert pattern == [] ==> OccursAt(text, pattern, 0);
    exists at: nat :: at <= |text| && OccursAt(text, pattern, at)
  }

  /** Folding a character twice folds it once. */
  lemma LowerAllIdempotent(s: string)
    ensures LowerAll(LowerAll(s)) == LowerAll(s)
  {
  }

  lemma OccursAtFolded(text: string, pattern: string, at: nat)
    ensures OccursAt(LowerAll(text), LowerAll(pattern), at) == OccursAt(text, pattern, at)
  {
    if at + |pattern| <= |text| {
      var window := text[at..at + |pattern|];
      assert LowerAll(text)[at..at + |pattern|] == LowerAll(window);
      LowerAllIdempotent(window);
      LowerAllIdempotent(pattern);
    }
  }

  /** The match depends only on the lower-cased title and term: case in either one is
      irrelevant. */
  lemma SearchFoldsCase(text: string, pattern: string)
    ensures ContainsIgnoringCase(text, pattern) <==> ContainsIgnoringCase(LowerAll(text), LowerAll(pattern))
  {
    forall at: nat
      ensures OccursAt(LowerAll(text), LowerAll(pattern), at) == OccursAt(text, pattern, at)
    {
      OccursAtFolded(text, pattern, at);
    }
  }

  /** An entry is listed under `search` when it has a title that contains the term; a
      document without a title never matches the pattern. */
  predicate TitleMatches(e: Entry, search: string): (b: bool)
    ensures b <==> e.title.Some? && ContainsIgnoringCase(LowerAll(e.title.value), LowerAll(search))
  {
    match e.title
    case None => false
    case Some(title) =>
      SearchFoldsCase(title, search);
      ContainsIgnoringCase(title, search)
  }

  /** The empty search term, the default, matches every titled entry. */
  lemma EmptySearchMatchesAll(e: Entry)
    requires e.title.Some?
    ensures TitleMatches(e, "")
  {
    assert OccursAt(e.title.value, "", 0);
  }

  /** Searching "inception" finds the title "Inception". */
  lemma SearchIgnoresCase()
    ensures ContainsIgnoringCase("Inception", "inception")
  {
    assert OccursAt("Inception", "inception", 0);
  }

  // ---------------------------------------------------------------------------------------
  // Queries over the watchlist table

  /** `find(filter)`: the entries the filter keeps, in stored order, each as often as stored. */
  function Filter(s: seq<Entry>, keep: Entry -> bool): (r: seq<Entry>)
    ensures |r| <= |s|
    ensures forall e :: multiset(r)[e] == if keep(e) then multiset(s)[e] else 0
  {
    if s == [] then []
    else
      assert s == [s[0]] + s[1..];
      (if keep(s[0]) then [s[0]] else []) + Filter(s[1..], keep)
  }

  /** The caller's entries whose title matches the search term. */
  function Matching(entries: seq<Entry>, caller: UserId, search: string): seq<Entry>
  {
    Filter(entries, (e: Entry) => e.user == caller && TitleMatches(e, search))
  }

  /** Sorted by `createdAt`, newest first. */
  ghost predicate NewestFirst(s: seq<Entry>)
  {
    forall i, j :: 0 <= i < j < |s| ==> s[i].createdAt >= s[j].createdAt
  }

  function Insert(e: Entry, s: seq<Entry>): (r: seq<Entry>)
    requires NewestFirst(s)
    ensures |r| == |s| + 1 && (r[0] == e || (s != [] && r[0] == s[0]))
    ensures NewestFirst(r)
    ensures multiset(r) == multiset(s) + multiset{e}
  {
    if s == [] || s[0].createdAt <= e.createdAt then [e] + s
    else
      var t := Insert(e, s[1..]);
      assert s == [s[0]] + s[1..];
      assert t[0].createdAt <= s[0].createdAt;
      [s[0]] + t
  }

  /** `sort({ createdAt: -1 })`: the same entries, newest first (equal times keep stored
      order). */
  function SortNewestFirst(s: seq<Entry>): (r: seq<Entry>)
    ensures NewestFirst(r)
    ensures multiset(r) == multiset(s) && |r| == |s|
  {
    if s == [] then []
    else
      assert s == [s[0]] + s[1..];
      Insert(s[0], SortNewestFirst(s[1..]))
  }

  function Min(a: nat, b: nat): nat
  {
    if a <= b then a else b
  }

  /** `skip((page - 1) * limit).limit(limit)`: at most `limit` items starting at the
      page's offset; a page past the end is empty. */
  function Paginate<T>(s: seq<T>, page: nat, limit: nat): (r: seq<T>)
    requires page >= 1 && limit >= 1
    ensures |r| == if (page - 1) * limit >= |s| then 0 else Min(limit, |s| - (page - 1) * limit)
    ensures forall i :: 0 <= i < |r| ==> r[i] == s[(page - 1) * limit + i]
  {
    var from := Min((page - 1) * limit, |s|);
    s[from..Min(from + limit, |s|)]
  }

  lemma MatchingMembers(entries: seq<Entry>, caller: UserId, search: string)
    ensures forall e :: e in Matching(entries, caller, search) ==>
      e in entries && e.user == caller && TitleMatches(e, search)
  {
    var m := Matching(entries, caller, search);
    forall e | e in m ensures e in entries && e.user == caller && TitleMatches(e, search) {
      assert multiset(m)[e] > 0;
    }
  }

  lemma SortedMembers(s: seq<Entry>)
    ensures forall e :: e in SortNewestFirst(s) ==> e in s
  {
    var r := SortNewestFirst(s);
    forall e | e in r ensures e in s {
      assert multiset(r)[e] > 0;
    }
  }

  /** A page of a newest-first sequence is newest-first and holds only its items. */
  lemma PageOfSorted(s: seq<Entry>, page: nat, limit: nat)
    requires page >= 1 && limit >= 1 && NewestFirst(s)
    ensures NewestFirst(Paginate(s, page, limit))
    ensures forall e :: e in Paginate(s, page, limit) ==> e in s
  {
  }

  /** `Math.ceil(total / limit)`: the least number of pages of `limit` items that hold
      `total` items. */
  function TotalPages(total: nat, limit: nat): (n: nat)
    requires limit >= 1
    ensures total <= n * limit
    ensures n > 0 ==> (n - 1) * limit < total
  {
    (total + limit - 1) / limit
  }

  /** `parseInt(q) || fallback`: an absent or non-numeric parameter (NaN) and 0 are falsy. */
  function QueryNumber(q: Option<nat>, fallback: nat): (n: nat)
    ensures q.Some? && q.value != 0 ==> n == q.value
    ensures q.None? || q.value == 0 ==> n == fallback
    ensures fallback >= 1 ==> n >= 1
  {
    if q.Some? && q.value != 0 then q.value else fallback
  }

  /** `req.query.search || ""`. */
  function SearchTerm(search: Option<string>): string
  {
    if search.Some? then search.value else ""
  }

  /** The listing's body. */
  datatype WatchlistPage = WatchlistPage(
    currentPage: nat,
    totalPages: nat,
    totalItems: nat,
    itemsPerPage: nat,
    watchlist: seq<Entry>)

  /** GET /watchlist: one page of the caller's title-matching entries, newest first, with
      the pagination figures. */
  function ListWatchlist(entries: seq<Entry>, caller: UserId, page: Option<nat>,
                         limit: Option<nat>, search: Option<string>): (r: WatchlistPage)
    ensures r.currentPage >= 1 && r.itemsPerPage >= 1
    ensures (page.None? || page.value == 0) ==> r.currentPage == 1
    ensures (limit.None? || limit.value == 0) ==> r.itemsPerPage == 10
    ensures page.Some? && page.value != 0 ==> r.currentPage == page.value
    ensures limit.Some? && limit.value != 0 ==> r.itemsPerPage == limit.value
    ensures r.totalItems == |Matching(entries, caller, SearchTerm(search))|
    ensures r.totalItems <= r.totalPages * r.itemsPerPage
    ensures r.totalPages > 0 ==> (r.totalPages - 1) * r.itemsPerPage < r.totalItems
    ensures |r.watchlist| <= r.itemsPerPage
    ensures NewestFirst(r.watchlist)
    ensures forall e :: e in r.watchlist ==>
      e in entries && e.user == caller && TitleMatches(e, SearchTerm(search))
    ensures r.watchlist ==
      Paginate(SortNewestFirst(Matching(entries, caller, SearchTerm(search))), r.currentPage, r.itemsPerPage)
  {
    var p := QueryNumber(page, 1);
    var n := QueryNumber(limit, 10);
    var matching := Matching(entries, caller, SearchTerm(search));
    var sorted := SortNewestFirst(matching);
    MatchingMembers(entries, caller, SearchTerm(search));
    SortedMembers(matching);
    PageOfSorted(sorted, p, n);
    WatchlistPage(p, TotalPages(|matching|, n), |matching|, n, Paginate(sorted, p, n))
  }

  /** Pages 1 to `n` laid end to end. */
  function FirstPages<T>(s: seq<T>, limit: nat, n: nat): seq<T>
    requires limit >= 1
  {
    if n == 0 then [] else FirstPages(s, limit, n - 1) + Paginate(s, n, limit)
  }

  lemma {:induction false} FirstPagesArePrefix<T>(s: seq<T>, limit: nat, n: nat)
    requires limit >= 1
    ensures FirstPages(s, limit, n) == s[..Min(n * limit, |s|)]
  {
    if n > 0 {
      FirstPagesArePrefix(s, limit, n - 1);
      assert (n - 1) * limit + limit == n * limit;
      var page := Paginate(s, n, limit);
      var before := s[..Min((n - 1) * limit, |s|)];
      assert before + page == s[..Min(n * limit, |s|)];
    }
  }

  /** The pages 1 to totalPages, laid end to end, are the whole listing: every matching
      entry is on exactly one page, in order. */
  lemma PagesCoverListing<T>(s: seq<T>, limit: nat)
    requires limit >= 1
    ensures FirstPages(s, limit, TotalPages(|s|, limit)) == s
  {
    FirstPagesArePrefix(s, limit, TotalPages(|s|, limit));
  }

  lemma {:induction false} MulMonotone(a: nat, b: nat, c: nat)
    requires a <= b
    ensures a * c <= b * c
  {
    if a < b {
      MulMonotone(a, b - 1, c);
      assert b * c == (b - 1) * c + c;
    }
  }

  /** Every page up to totalPages holds at least one item, and every page after it none. */
  lemma PageIsEmptyExactlyPastTheEnd<T>(s: seq<T>, page: nat, limit: nat)
    requires page >= 1 && limit >= 1
    ensures Paginate(s, page, limit) == [] <==> page > TotalPages(|s|, limit)
  {
    var n := TotalPages(|s|, limit);
    if page > n {
      MulMonotone(n, page - 1, limit);
      assert (page - 1) * limit >= |s|;
    } else {
      MulMonotone(page - 1, n - 1, limit);
      assert (page - 1) * limit < |s|;
    }
  }

  /** Fifteen matching entries with a limit of ten: two pages, of ten and five items. */
  lemma FifteenEntriesMakeTwoPages(entries: seq<Entry>, caller: UserId)
    requires |Matching(entries, caller, "")| == 15
    ensures ListWatchlist(entries, caller, Some(1), Some(10), None).totalPages == 2
    ensures ListWatchlist(entries, caller, None, None, None).totalItems == 15
    ensures |ListWatchlist(entries, caller, None, None, None).watchlist| == 10
    ensures |ListWatchlist(entries, caller, Some(2), Some(10), None).watchlist| == 5
    ensures ListWatchlist(entries, caller, Some(3), Some(10), None).watchlist == []
  {
    var sorted := SortNewestFirst(Matching(entries, caller, ""));
    assert |sorted| == 15;
    assert TotalPages(15, 10) == 2;
    assert |Paginate(sorted, 1, 10)| == 10;
    assert |Paginate(sorted, 2, 10)| == 5;
    assert |Paginate(sorted, 3, 10)| == 0;
  }

  /** GET /watchlist/loved: every entry of the caller marked loved, in stored order,
      unpaginated. */
  function LovedMovies(entries: seq<Entry>, caller: UserId): (r: seq<Entry>)
    ensures forall e :: e in r <==> e in entries && e.user == caller && e.loved
    ensures forall e :: multiset(r)[e] == if e.user == caller && e.loved then multiset(entries)[e] else 0
  {
    var r := Filter(entries, (e: Entry) => e.user == caller && e.loved);
    assert forall e :: e in r <==> multiset(r)[e] > 0;
    assert forall e :: e in entries <==> multiset(entries)[e] > 0;
    r
  }

  // ---------------------------------------------------------------------------------------
  // Profile

  /** GET /profile: the caller's user document without its password, or 404 when the id no
      longer resolves. */
  function GetProfile(users: seq<User>, caller: UserId): (r: Result<PublicUser>)
    ensures r.Err? <==> forall i :: 0 <= i < |users| ==> users[i].id != caller
    ensures r.Err? ==> r == Err(404, "User not found")
    ensures r.Ok? ==> r.status == 200 && r.value.id == caller
    ensures r.Ok? ==> exists i :: 0 <= i < |users| && Public(users[i]) == r.value
  {
    match FindUserById(users, caller)
    case None => Err(404, "User not found")
    case Some(k) => Ok(200, Public(users[k]))
  }

  /** The fields of a user document after a profile update: an omitted or empty name or
      email keeps the stored one, and a supplied password replaces the stored secret by its
      hash. Nothing checks that a new email is unused. */
  function UpdatedUser(u: User, name: Option<string>, email: Option<string>,
                       password: Option<string>, crypto: Primitives, salt: nat): (v: User)
    ensures v.id == u.id
    ensures Present(name) ==> v.name == name.value
    ensures Present(email) ==> v.email == email.value
    ensures !Present(name) ==> v.name == u.name
    ensures !Present(email) ==> v.email == u.email
    ensures !Present(password) ==> v.password == u.password
    ensures Present(password) ==> v.password == Hashed(crypto.hash(password.value, salt))
  {
    User(u.id,
         if Present(name) then name.value else u.name,
         if Present(email) then email.value else u.email,
         if Present(password) then Hashed(crypto.hash(password.value, salt)) else u.password)
  }

  /** PUT /profile. */
  method UpdateProfile(db: Store, crypto: Primitives, caller: UserId, name: Option<string>,
                       email: Option<string>, password: Option<string>, salt: nat)
    returns (r: Result<AuthReply>)
    requires db.Valid()
    modifies db`users
    ensures db.Valid()
    ensures FindUserById(old(db.users), caller).None? ==>
      r == Err(404, "User not found") && db.users == old(db.users)
    ensures FindUserById(old(db.users), caller).Some? ==>
      var k := FindUserById(old(db.users), caller).value;
      var u := UpdatedUser(old(db.users)[k], name, email, password, crypto, salt);
      && db.users == old(db.users)[k := u]
      && r == Ok(200, AuthReply(caller, u.name, u.email, crypto.sign(caller)))
  {
    var k := FindUserById(db.users, caller);
    if k.None? {
      return Err(404, "User not found");
    }
    var u := UpdatedUser(db.users[k.value], name, email, password, crypto, salt);
    db.users := db.users[k.value := u];
    r := Ok(200, AuthReply(u.id, u.name, u.email, crypto.sign(u.id)));
  }

  /** The update does not re-check email uniqueness: giving a second user the first user's
      email leaves two users with the same email. */
  lemma ProfileUpdateCanDuplicateEmail(crypto: Primitives)
    ensures var users := [User(0, "A", "a@b.com", Plain("x")), User(1, "B", "b@b.com", Plain("y"))];
            var after := users[1 := UpdatedUser(users[1], None, Some("a@b.com"), None, crypto, 0)];
            after[0].email == after[1].email && after[0].id != after[1].id
  {
  }

  // ---------------------------------------------------------------------------------------
  // Watchlist mutations

  /** The body the love, rate and comment handlers answer with. */
  datatype EntryReply = EntryReply(message: string, movie: Entry)

  /** `!movieId || !title || !poster_path` fails; a movie id of 0 is falsy. */
  predicate MovieDataPresent(movieId: Option<int>, title: Option<string>, posterPath: Option<string>)
  {
    movieId.Some? && movieId.value != 0 && Present(title) && Present(posterPath)
  }

  /** Replacing an entry by one with the same key keeps keys unique and, if the new entry
      is valid, the table valid. */
  lemma ReplaceKeepsKeys(entries: seq<Entry>, k: nat, e: Entry)
    requires k < |entries| && UniqueKeys(entries)
    requires e.user == entries[k].user && e.movieId == entries[k].movieId
    ensures UniqueKeys(entries[k := e])
  {
  }

  /** POST /watchlist. */
  method SaveMovie(db: Store, caller: UserId, movieId: Option<int>, title: Option<string>,
                   posterPath: Option<string>, now: nat)
    returns (r: Result<Entry>)
    requires db.Valid()
    modifies db`entries
    ensures db.Valid()
    ensures !MovieDataPresent(movieId, title, posterPath) ==>
      r == Err(400, "Missing movie data") && db.entries == old(db.entries)
    ensures MovieDataPresent(movieId, title, posterPath) &&
            FindEntry(old(db.entries), caller, movieId.value).Some? ==>
      r == Err(400, "Movie already saved") && db.entries == old(db.entries)
    ensures MovieDataPresent(movieId, title, posterPath) &&
            FindEntry(old(db.entries), caller, movieId.value).None? ==>
      var e := NewEntry(caller, movieId.value, title.value, posterPath.value, now);
      r == Ok(201, e) && db.entries == old(db.entries) + [e]
    ensures r.Ok? ==> FindEntry(db.entries, caller, movieId.value) == Some(|old(db.entries)|)
  {
    if !MovieDataPresent(movieId, title, posterPath) {
      return Err(400, "Missing movie data");
    }
    if FindEntry(db.entries, caller, movieId.value).Some? {
      return Err(400, "Movie already saved");
    }
    var e := NewEntry(caller, movieId.value, title.value, posterPath.value, now);
    FindAppendedEntry(db.entries, e);
    db.entries := db.entries + [e];
    r := Ok(201, e);
  }

  /** PATCH /watchlist/:movieId/love. */
  method LoveMovie(db: Store, caller: UserId, movieId: int, now: nat)
    returns (r: Result<EntryReply>)
    requires db.Valid()
    modifies db`entries
    ensures db.Valid()
    ensures FindEntry(old(db.entries), caller, movieId).None? ==>
      r == Err(404, NotInWatchlist) && db.entries == old(db.entries)
    ensures FindEntry(old(db.entries), caller, movieId).Some? ==>
      var k := FindEntry(old(db.entries), caller, movieId).value;
      var stored := old(db.entries)[k];
      var e := Saved(stored, stored.(loved := true), now);
      && db.entries == old(db.entries)[k := e]
      && r == Ok(200, EntryReply("Movie marked as loved", e))
      && e.loved
      && (stored.loved ==> db.entries == old(db.entries))
  {
    var k := FindEntry(db.entries, caller, movieId);
    if k.None? {
      return Err(404, NotInWatchlist);
    }
    var stored := db.entries[k.value];
    var e := Saved(stored, stored.(loved := true), now);
    ReplaceKeepsKeys(db.entries, k.value, e);
    db.entries := db.entries[k.value := e];
    r := Ok(200, EntryReply("Movie marked as loved", e));
  }

  /** The table without its `k`-th entry. */
  function Without(entries: seq<Entry>, k: nat): (r: seq<Entry>)
    requires k < |entries|
    ensures |r| == |entries| - 1
  {
    entries[..k] + entries[k + 1..]
  }

  /** Deleting the entry found under a key leaves no entry with that key, and keeps keys
      unique. */
  lemma {:induction false} WithoutFound(entries: seq<Entry>, user: UserId, movieId: int)
    requires UniqueKeys(entries) && FindEntry(entries, user, movieId).Some?
    ensures var k := FindEntry(entries, user, movieId).value;
      UniqueKeys(Without(entries, k)) && FindEntry(Without(entries, k), user, movieId).None?
  {
    var k := FindEntry(entries, user, movieId).value;
    var after := Without(entries, k);
    assert forall i :: 0 <= i < |after| ==> after[i] == entries[if i < k then i else i + 1];
  }

  /** Saving a movie and then removing it gives back the table as it was. */
  lemma RemoveUndoesSave(entries: seq<Entry>, e: Entry)
    requires FindEntry(entries, e.user, e.movieId).None?
    ensures FindEntry(entries + [e], e.user, e.movieId) == Some(|entries|)
    ensures Without(entries + [e], |entries|) == entries
  {
    FindAppendedEntry(entries, e);
    assert (entries + [e])[..|entries|] == entries;
  }

  /** DELETE /watchlist/:movieId. */
  method RemoveMovie(db: Store, caller: UserId, movieId: int) returns (r: Result<string>)
    requires db.Valid()
    modifies db`entries
    ensures db.Valid()
    ensures FindEntry(old(db.entries), caller, movieId).None? ==>
      r == Err(404, NotInWatchlist) && db.entries == old(db.entries)
    ensures FindEntry(old(db.entries), caller, movieId).Some? ==>
      && db.entries == Without(old(db.entries), FindEntry(old(db.entries), caller, movieId).value)
      && r == Ok(200, "Movie removed from watchlist")
    ensures FindEntry(db.entries, caller, movieId).None?
  {
    var k := FindEntry(db.entries, caller, movieId);
    if k.None? {
      return Err(404, NotInWatchlist);
    }
    WithoutFound(db.entries, caller, movieId);
    db.entries := Without(db.entries, k.value);
    r := Ok(200, "Movie removed from watchlist");
  }

  /** `!rating || rating < 1 || rating > 5` fails; a rating of 0 is falsy. */
  predicate RatingAccepted(rating: Option<int>)
  {
    !(rating.None? || rating.value == 0 || rating.value < 1 || rating.value > 5)
  }

  /** PATCH /watchlist/:movieId/rate. */
  method RateMovie(db: Store, caller: UserId, movieId: int, rating: Option<int>, now: nat)
    returns (r: Result<EntryReply>)
    requires db.Valid()
    modifies db`entries
    ensures db.Valid()
    ensures !RatingAccepted(rating) ==>
      r == Err(400, "Rating must be between 1 and 5") && db.entries == old(db.entries)
    ensures RatingAccepted(rating) && FindEntry(old(db.entries), caller, movieId).None? ==>
      r == Err(404, NotInWatchlist) && db.entries == old(db.entries)
    ensures RatingAccepted(rating) && FindEntry(old(db.entries), caller, movieId).Some? ==>
      var k := FindEntry(old(db.entries), caller, movieId).value;
      var stored := old(db.entries)[k];
      var e := Saved(stored, stored.(rating := rating), now);
      && db.entries == old(db.entries)[k := e]
      && r == Ok(200, EntryReply("Movie rated successfully", e))
      && e.rating == rating
  {
    if !RatingAccepted(rating) {
      return Err(400, "Rating must be between 1 and 5");
    }
    var k := FindEntry(db.entries, caller, movieId);
    if k.None? {
      return Err(404, NotInWatchlist);
    }
    var stored := db.entries[k.value];
    var e := Saved(stored, stored.(rating := rating), now);
    ReplaceKeepsKeys(db.entries, k.value, e);
    db.entries := db.entries[k.value := e];
    r := Ok(200, EntryReply("Movie rated successfully", e));
  }

  /** POST /watchlist/:movieId/comment. */
  method AddComment(db: Store, caller: UserId, movieId: int, text: Option<string>, now: nat)
    returns (r: Result<EntryReply>)
    requires db.Valid()
    modifies db`entries
    ensures db.Valid()
    ensures !Present(text) ==>
      r == Err(400, "Comment text is required") && db.entries == old(db.entries)
    ensures Present(text) && FindEntry(old(db.entries), caller, movieId).None? ==>
      r == Err(404, NotInWatchlist) && db.entries == old(db.entries)
    ensures Present(text) && FindEntry(old(db.entries), caller, movieId).Some? ==>
      var k := FindEntry(old(db.entries), caller, movieId).value;
      var stored := old(db.entries)[k];
      var e := stored.(comments := stored.comments + [NewComment(text.value, now)], updatedAt := now);
      && db.entries == old(db.entries)[k := e]
      && r == Ok(200, EntryReply("Comment added", e))
  {
    if !Present(text) {
      return Err(400, "Comment text is required");
    }
    var k := FindEntry(db.entries, caller, movieId);
    if k.None? {
      return Err(404, NotInWatchlist);
    }
    var stored := db.entries[k.value];
    var changed := stored.(comments := stored.comments + [NewComment(text.value, now)]);
    assert changed.comments != stored.comments;
    var e := Saved(stored, changed, now);
    ReplaceKeepsKeys(db.entries, k.value, e);
    db.entries := db.entries[k.value := e];
    r := Ok(200, EntryReply("Comment added", e));
  }
}
