/** The relational store behind the API: the `users`, `movies`, `votes` and `comments`
    tables. A scanned table is a sequence of rows in table order; the keys the schema
    makes unique are invariants of the `Database` object. */
module Store {
  import opened Common

  type UserId = int
  type MovieId = int
  type CommentId = int
  /** A point in time as the database's `NOW()` reports it. */
  type Timestamp = int

  datatype User = User(name: string, role: string)

  /** The identity the authentication middleware puts on a request (`req.user`). */
  datatype Caller = Caller(id: UserId, role: string)

  datatype Movie = Movie(id: MovieId, title: string, description: string, addedBy: UserId, createdAt: Timestamp)

  datatype Vote = Vote(userId: UserId, movieId: MovieId, voteType: int, createdAt: Timestamp)

  datatype Comment = Comment(id: CommentId, userId: UserId, movieId: MovieId, body: string, createdAt: Timestamp)

  /** A stored vote is an upvote or a downvote; 0 exists only in requests. */
  predicate IsStoredVoteType(t: int)
  {
    t == 1 || t == -1
  }

  predicate SameKey(v: Vote, u: UserId, m: MovieId)
  {
    v.userId == u && v.movieId == m
  }

  predicate UniqueMovieIds(movies: seq<Movie>)
  {
    forall i, j | 0 <= i < j < |movies| :: movies[i].id != movies[j].id
  }

  /** The row the table holds for (u, m); the last one in table order, as a scan that
      keeps overwriting would leave it, when there were several. */
  function RowOf(votes: seq<Vote>, u: UserId, m: MovieId): (r: Option<Vote>)
    ensures r.Some? ==> SameKey(r.value, u, m)
  {
    if votes == [] then None
    else if SameKey(votes[|votes| - 1], u, m) then Some(votes[|votes| - 1])
    else RowOf(votes[..|votes| - 1], u, m)
  }

  /** The lookup finds a row of the table, and finds none exactly when no row has the key. */
  lemma {:induction false} RowOfFinds(votes: seq<Vote>, u: UserId, m: MovieId)
    ensures RowOf(votes, u, m).Some? ==> RowOf(votes, u, m).value in votes
    ensures RowOf(votes, u, m).None? <==> forall i | 0 <= i < |votes| :: !SameKey(votes[i], u, m)
  {
    if votes != [] {
      var init := votes[..|votes| - 1];
      RowOfFinds(init, u, m);
      assert forall i | 0 <= i < |init| :: init[i] == votes[i];
    }
  }

  /** The UNIQUE (user_id, movie_id) constraint of the votes table, stated row by row:
      no row repeats the key of a row before it. */
  predicate UniqueVoteKeys(votes: seq<Vote>)
  {
    votes == [] ||
      var last := votes[|votes| - 1];
      UniqueVoteKeys(votes[..|votes| - 1]) && RowOf(votes[..|votes| - 1], last.userId, last.movieId).None?
  }

  /** The row-by-row statement is the constraint: no two rows share a key. */
  lemma {:induction false} UniqueVoteKeysPairwise(votes: seq<Vote>)
    ensures UniqueVoteKeys(votes) <==>
      forall i, j | 0 <= i < j < |votes| :: !SameKey(votes[j], votes[i].userId, votes[i].movieId)
  {
    if votes != [] {
      var init := votes[..|votes| - 1];
      UniqueVoteKeysPairwise(init);
      RowOfFinds(init, votes[|votes| - 1].userId, votes[|votes| - 1].movieId);
      assert forall i | 0 <= i < |init| :: init[i] == votes[i];
    }
  }

  predicate StoredVoteTypes(votes: seq<Vote>)
  {
    forall i | 0 <= i < |votes| :: IsStoredVoteType(votes[i].voteType)
  }

  predicate UniqueCommentIds(comments: seq<Comment>)
  {
    forall i, j | 0 <= i < j < |comments| :: comments[i].id != comments[j].id
  }

  /** `SELECT ... FROM <table> WHERE id = $1`: the first row whose id (read by `idOf`)
      is `id`, if any. */
  function Find<T>(rows: seq<T>, idOf: T -> int, id: int): (r: Option<T>)
    ensures r.Some? ==> r.value in rows && idOf(r.value) == id
    ensures r.None? <==> forall i | 0 <= i < |rows| :: idOf(rows[i]) != id
  {
    if rows == [] then None
    else if idOf(rows[0]) == id then Some(rows[0])
    else Find(rows[1..], idOf, id)
  }

  /** The lookup returns the first row with the id. */
  lemma {:induction false} FindFirst<T>(rows: seq<T>, idOf: T -> int, id: int)
    requires Find(rows, idOf, id).Some?
    ensures exists k | 0 <= k < |rows| ::
      (rows[k] == Find(rows, idOf, id).value && forall i | 0 <= i < k :: idOf(rows[i]) != id)
  {
    if idOf(rows[0]) != id {
      FindFirst(rows[1..], idOf, id);
      var k :| 0 <= k < |rows| - 1 && rows[1..][k] == Find(rows, idOf, id).value &&
        forall i | 0 <= i < k :: idOf(rows[1..][i]) != id;
      assert rows[k + 1] == rows[1..][k];
      assert forall i | 1 <= i < k + 1 :: rows[i] == rows[1..][i - 1];
    }
  }

  /** A row with the id and none before it is what the lookup returns. */
  lemma {:induction false} FirstFound<T>(rows: seq<T>, idOf: T -> int, id: int, k: nat)
    requires k < |rows| && idOf(rows[k]) == id && forall i | 0 <= i < k :: idOf(rows[i]) != id
    ensures Find(rows, idOf, id) == Some(rows[k])
  {
    if k > 0 {
      assert forall i | 0 <= i < k - 1 :: rows[1..][i] == rows[i + 1];
      FirstFound(rows[1..], idOf, id, k - 1);
    }
  }

  function MovieKey(mv: Movie): MovieId { mv.id }

  function CommentKey(c: Comment): CommentId { c.id }

  /** The movie with that id, if any. */
  function FindMovie(movies: seq<Movie>, id: MovieId): Option<Movie>
  {
    Find(movies, MovieKey, id)
  }

  /** The comment with that id, if any. */
  function FindComment(comments: seq<Comment>, id: CommentId): Option<Comment>
  {
    Find(comments, CommentKey, id)
  }

  /** The contents of the four tables at one moment, as a query sees them. */
  datatype Tables = Tables(users: map<UserId, User>, movies: seq<Movie>, votes: seq<Vote>, comments: seq<Comment>)

  /** The database the API routes share. Ids of new movies and comments come from
      SERIAL sequences, kept here as the next value each will hand out. */
  class Database {
    var users: map<UserId, User>
    var movies: seq<Movie>
    var votes: seq<Vote>
    var comments: seq<Comment>
    var nextMovieId: MovieId
    var nextCommentId: CommentId

    /** The schema's keys and constraints, and the fact that every vote and comment names
        a movie id the sequence has handed out (the movie may have been deleted since). */
    ghost predicate Valid()
      reads this
    {
      && UniqueMovieIds(movies)
      && (forall mv | mv in movies :: mv.id < nextMovieId)
      && UniqueVoteKeys(votes)
      && StoredVoteTypes(votes)
      && (forall v | v in votes :: v.movieId < nextMovieId)
      && UniqueCommentIds(comments)
      && (forall c | c in comments :: c.id < nextCommentId)
      && (forall c | c in comments :: c.movieId < nextMovieId)
    }

    function Snapshot(): Tables
      reads this
    {
      Tables(users, movies, votes, comments)
    }

    constructor (users: map<UserId, User>)
      ensures Valid()
      ensures this.users == users && movies == [] && votes == [] && comments == []
    {
      this.users := users;
      movies := [];
      votes := [];
      comments := [];
      nextMovieId := 1;
      nextCommentId := 1;
    }
  }
}
