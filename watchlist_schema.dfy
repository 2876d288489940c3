/** The shape of a stored watchlist entry and of its comments: required fields, defaults,
    the rating bounds and the timestamps the schema adds. */
module WatchlistSchema {
  import opened Base

  const MinRating := 1
  const MaxRating := 5

  /** One comment on an entry; `createdAt` is the time it was pushed. */
  datatype Comment = Comment(text: string, createdAt: nat)

  /** One saved movie. `user` and `movieId` are the required fields (the types make them
      present; `movieId` is a number); the display fields are optional strings; `rating` is
      absent until the first rating; `createdAt` and `updatedAt` are the schema timestamps,
      as natural numbers. */
  datatype Entry = Entry(
    user: UserId,
    movieId: int,
    title: Option<string>,
    overview: Option<string>,
    posterPath: Option<string>,
    backdropPath: Option<string>,
    releaseDate: Option<string>,
    genreIds: seq<int>,
    loved: bool,
    rating: Option<int>,
    comments: seq<Comment>,
    createdAt: nat,
    updatedAt: nat)

  /** A rating, when present, lies within the schema's bounds. */
  predicate ValidRating(rating: Option<int>)
  {
    rating.Some? ==> MinRating <= rating.value <= MaxRating
  }

  /** A comment's text is required, and a required string may not be empty. */
  predicate ValidComment(c: Comment)
  {
    c.text != ""
  }

  /** What the schema's validators accept on save. */
  predicate ValidEntry(e: Entry)
  {
    ValidRating(e.rating) && forall i :: 0 <= i < |e.comments| ==> ValidComment(e.comments[i])
  }

  /** The document created for a new save: the given fields, every default applied (not
      loved, no rating, no comments, no genres) and both timestamps set to `now`. */
  function NewEntry(user: UserId, movieId: int, title: string, posterPath: string, now: nat): (e: Entry)
    ensures ValidEntry(e)
    ensures e.user == user && e.movieId == movieId
    ensures e.title == Some(title) && e.posterPath == Some(posterPath)
    ensures !e.loved && e.rating.None? && e.comments == [] && e.genreIds == []
    ensures e.createdAt == now && e.updatedAt == now
  {
    Entry(user, movieId, Some(title), None, Some(posterPath), None, None, [], false, None, [], now, now)
  }

  /** A comment pushed with only its text: `createdAt` takes its default, the current time. */
  function NewComment(text: string, now: nat): (c: Comment)
    requires text != ""
    ensures ValidComment(c) && c.text == text && c.createdAt == now
  {
    Comment(text, now)
  }

  /** What saving `changed`, an edited copy of the stored `stored`, writes back: with
      timestamps on, `updatedAt` moves to `now` only when some field really changed, and an
      unmodified document is left exactly as it was. */
  function Saved(stored: Entry, changed: Entry, now: nat): (e: Entry)
    ensures changed == stored ==> e == stored
    ensures changed != stored ==> e.updatedAt == now
    ensures e.(updatedAt := changed.updatedAt) == changed
  {
    if changed == stored then stored else changed.(updatedAt := now)
  }
}
