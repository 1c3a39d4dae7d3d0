/** The movie routes: `GET /movies` (the ranked listing, with the caller's own votes when
    the request carries a valid token), `POST /movies`, `DELETE /movies/:id`,
    `GET /movies/top` and `GET /movies/:id/votes`. */
module MovieRoutes {
  import opened Common
  import opened Store
  import opened Aggregates
  import opened Sorting
  import opened Ranking

  // ---- GET /movies ------------------------------------------------------------------

  /** `String.prototype.substring(7)`: what follows the first seven characters; empty for a
      shorter string. */
  function Substring7(s: string): (r: string)
    ensures |r| == if |s| >= 7 then |s| - 7 else 0
    ensures forall i | 0 <= i < |r| :: r[i] == s[i + 7]
  {
    if |s| >= 7 then s[7..] else []
  }

  /** The user a listing request is enriched for: the Authorization header must be present
      and non-empty, and `verify` (the JWT check, None where it throws) must accept the text
      after its first seven characters. */
  function HeaderUser(authorization: Option<string>, verify: string -> Option<UserId>): Option<UserId>
  {
    if authorization.Some? && authorization.value != [] then verify(Substring7(authorization.value)) else None
  }

  /** `userVotes`: the caller's rows of the votes table, movie id to vote type, built by
      one pass over the rows in table order in which a later row overwrites an earlier. */
  method CallerVotes(votes: seq<Vote>, u: UserId) returns (userVotes: map<MovieId, int>)
    ensures forall m :: m in userVotes <==> RowOf(votes, u, m).Some?
    ensures forall m | m in userVotes :: userVotes[m] == RowOf(votes, u, m).value.voteType
  {
    userVotes := map[];
    var i := 0;
    while i < |votes|
      invariant 0 <= i <= |votes|
      invariant forall m :: m in userVotes <==> RowOf(votes[..i], u, m).Some?
      invariant forall m | m in userVotes :: userVotes[m] == RowOf(votes[..i], u, m).value.voteType
    {
      assert votes[..i + 1][..i] == votes[..i];
      if votes[i].userId == u {
        userVotes := userVotes[votes[i].movieId := votes[i].voteType];
      }
      i := i + 1;
    }
    assert votes[..|votes|] == votes;
  }

  /** `userVotes[movie.id] || 0` */
  function UserVote(userVotes: map<MovieId, int>, m: MovieId): int
  {
    if m in userVotes && userVotes[m] != 0 then userVotes[m] else 0
  }

  /** `rows.map(movie => ({...movie, user_vote: ...}))` */
  function WithUserVotes(rows: seq<ListedMovie>, userVotes: map<MovieId, int>): (r: seq<ListedMovie>)
    ensures |r| == |rows|
    ensures forall i | 0 <= i < |rows| :: r[i] == rows[i].(userVote := Some(UserVote(userVotes, rows[i].id)))
  {
    if rows == [] then []
    else [rows[0].(userVote := Some(UserVote(userVotes, rows[0].id)))] + WithUserVotes(rows[1..], userVotes)
  }

  /** `GET /movies`: the listing; with a token that verifies, every entry also carries the
      caller's current vote on it (0 without one); with no header, a token that does not
      verify, or a failure of the caller's-votes query (`votesFail`), which the inner
      `catch` swallows, the listing as it is, never an error. */
  method ListMovies(db: Database, authorization: Option<string>, verify: string -> Option<UserId>, votesFail: bool)
    returns (r: Response<seq<ListedMovie>>)
    ensures r.Ok? && r.status == 200
    ensures HeaderUser(authorization, verify).None? || votesFail ==> r.body == Listing(db.Snapshot())
    ensures HeaderUser(authorization, verify).Some? && !votesFail ==>
      var u := HeaderUser(authorization, verify).value;
      var listing := Listing(db.Snapshot());
      |r.body| == |listing| &&
      forall i | 0 <= i < |listing| ::
        r.body[i] == listing[i].(userVote := Some(CurrentVote(db.votes, u, listing[i].id)))
  {
    var rows := Listing(db.Snapshot());
    if authorization.Some? && authorization.value != [] {
      var token := Substring7(authorization.value);
      var decoded := verify(token);
      if decoded.Some? && !votesFail {
        var userVotes := CallerVotes(db.votes, decoded.value);
        rows := WithUserVotes(rows, userVotes);
      }
    }
    r := Ok(200, rows);
  }

  // ---- POST /movies -----------------------------------------------------------------

  /** The body of a 201 reply: the stored row, its adder's name and zero figures. */
  datatype AddedMovie = AddedMovie(message: string, movie: Movie, addedByName: string, score: int, commentCount: int)

  /** `body('title').trim().notEmpty()` and `body('description').trim().notEmpty()` */
  function MovieChecks(title: string, description: string): seq<Check>
  {
    [ Check(Trim(title) != [], "Title is required"),
      Check(Trim(description) != [], "Description is required") ]
  }

  /** `POST /movies` for the authenticated `caller`; `now` is the database's NOW(). The
      row is inserted before the adder's name is read, so a caller without a users row
      gets 500 with the movie already stored. */
  method AddMovie(db: Database, caller: Caller, title: string, description: string, now: Timestamp)
    returns (r: Response<AddedMovie>)
    requires db.Valid()
    modifies db
    ensures db.Valid()
    ensures db.users == old(db.users) && db.votes == old(db.votes) && db.comments == old(db.comments)
    ensures db.nextCommentId == old(db.nextCommentId)
    ensures RejectInvalid<AddedMovie>(MovieChecks(title, description)).Some? ==>
      r == RejectInvalid<AddedMovie>(MovieChecks(title, description)).value &&
      db.movies == old(db.movies) && db.nextMovieId == old(db.nextMovieId)
    ensures RejectInvalid<AddedMovie>(MovieChecks(title, description)).None? ==>
      var mv := Movie(old(db.nextMovieId), Trim(title), Trim(description), caller.id, now);
      && db.movies == old(db.movies) + [mv]
      && db.nextMovieId == old(db.nextMovieId) + 1
      && r == if caller.id in db.users
              then Ok(201, AddedMovie("Movie added successfully", mv, db.users[caller.id].name, 0, 0))
              else Err(500, Error("Failed to add movie"))
  {
    var invalid := RejectInvalid<AddedMovie>(MovieChecks(title, description));
    if invalid.Some? {
      return invalid.value;
    }
    var mv := Movie(db.nextMovieId, Trim(title), Trim(description), caller.id, now);
    AppendNewMovie(db.movies, mv);
    db.movies := db.movies + [mv];
    db.nextMovieId := db.nextMovieId + 1;
    if caller.id !in db.users {
      return Err(500, Error("Failed to add movie"));
    }
    r := Ok(201, AddedMovie("Movie added successfully", mv, db.users[caller.id].name, 0, 0));
  }

  /** A row with a fresh id keeps the ids unique and below the next fresh one. */
  lemma AppendNewMovie(movies: seq<Movie>, mv: Movie)
    requires UniqueMovieIds(movies) && forall x | x in movies :: x.id < mv.id
    ensures UniqueMovieIds(movies + [mv])
    ensures forall x | x in movies + [mv] :: x.id < mv.id + 1
  {
  }

  /** The zero score and comment count of the 201 reply are what the listing reports for
      the new movie, and its adder's name is the one the listing joins in. */
  lemma AddedMovieListed(before: Tables, mv: Movie)
    requires forall v | v in before.votes :: v.movieId < mv.id
    requires forall c | c in before.comments :: c.movieId < mv.id
    requires mv.addedBy in before.users
    ensures var t := before.(movies := before.movies + [mv]);
      ListedRow(t, mv) in Listing(t) &&
      ListedRow(t, mv).score == 0 && ListedRow(t, mv).commentCount == 0 &&
      ListedRow(t, mv).addedByName == Some(before.users[mv.addedBy].name)
  {
    var t := before.(movies := before.movies + [mv]);
    ListingEntries(t);
    QuietMovie(t, mv);
  }

  // ---- DELETE /movies/:id ------------------------------------------------------------

  /** `DELETE FROM movies WHERE id = $1`: the table without the rows of that id, in order. */
  function WithoutMovie(movies: seq<Movie>, id: MovieId): seq<Movie>
  {
    if movies == [] then []
    else
      var last := movies[|movies| - 1];
      WithoutMovie(movies[..|movies| - 1], id) + (if last.id == id then [] else [last])
  }

  /** Only the rows of that id are removed. */
  lemma {:induction false} WithoutMovieMembers(movies: seq<Movie>, id: MovieId)
    ensures forall mv :: mv in WithoutMovie(movies, id) <==> mv in movies && mv.id != id
  {
    if movies != [] {
      var init := movies[..|movies| - 1];
      WithoutMovieMembers(init, id);
      assert movies == init + [movies[|movies| - 1]];
    }
  }

  /** With unique ids, deleting an id that is present removes exactly one row, and the ids
      stay unique. */
  lemma {:induction false} WithoutMovieUnique(movies: seq<Movie>, id: MovieId)
    requires UniqueMovieIds(movies)
    ensures UniqueMovieIds(WithoutMovie(movies, id))
    ensures |WithoutMovie(movies, id)| == |movies| - (if FindMovie(movies, id).Some? then 1 else 0)
  {
    if movies != [] {
      var init := movies[..|movies| - 1];
      var last := movies[|movies| - 1];
      assert UniqueMovieIds(init);
      WithoutMovieUnique(init, id);
      WithoutMovieMembers(init, id);
      var r0 := WithoutMovie(init, id);
      if last.id != id {
        forall i, j | 0 <= i < j < |r0| + 1 ensures (r0 + [last])[i].id != (r0 + [last])[j].id {
          if j == |r0| {
            assert (r0 + [last])[i] == r0[i];
            assert r0[i] in init;
            var k :| 0 <= k < |init| && init[k] == r0[i];
            assert movies[k] == init[k];
          } else {
            assert (r0 + [last])[i] == r0[i] && (r0 + [last])[j] == r0[j];
          }
        }
      } else {
        assert r0 + [] == r0;
      }
      FindLast(movies, id);
    }
  }

  /** The lookup from the front and the lookup of the last row agree on presence. */
  lemma FindLast(movies: seq<Movie>, id: MovieId)
    requires movies != []
    ensures FindMovie(movies, id).Some? <==>
      FindMovie(movies[..|movies| - 1], id).Some? || movies[|movies| - 1].id == id
  {
    var init := movies[..|movies| - 1];
    assert forall i | 0 <= i < |init| :: init[i] == movies[i];
  }

  /** `DELETE /movies/:id` (the admin check is made before the handler). An id that is not
      an integer makes the query fail. Votes and comments are not touched here. */
  method DeleteMovie(db: Database, id: Option<int>) returns (r: Response<string>)
    requires db.Valid()
    modifies db
    ensures db.Valid()
    ensures db.users == old(db.users) && db.votes == old(db.votes) && db.comments == old(db.comments)
    ensures db.nextMovieId == old(db.nextMovieId) && db.nextCommentId == old(db.nextCommentId)
    ensures id.None? ==> r == Err(500, Error("Failed to delete movie")) && db.movies == old(db.movies)
    ensures id.Some? && FindMovie(old(db.movies), id.value).None? ==>
      r == Err(404, Error("Movie not found")) && db.movies == old(db.movies)
    ensures id.Some? && FindMovie(old(db.movies), id.value).Some? ==>
      r == Ok(200, "Movie deleted successfully") && db.movies == WithoutMovie(old(db.movies), id.value)
  {
    if id.None? {
      return Err(500, Error("Failed to delete movie"));
    }
    var found := FindMovie(db.movies, id.value);
    WithoutMovieMembers(db.movies, id.value);
    WithoutMovieUnique(db.movies, id.value);
    if found.None? {
      WithoutMovieAbsent(db.movies, id.value);
      return Err(404, Error("Movie not found"));
    }
    db.movies := WithoutMovie(db.movies, id.value);
    r := Ok(200, "Movie deleted successfully");
  }

  /** Deleting an id with no row changes nothing (the handler then answers 404). */
  lemma {:induction false} WithoutMovieAbsent(movies: seq<Movie>, id: MovieId)
    requires FindMovie(movies, id).None?
    ensures WithoutMovie(movies, id) == movies
  {
    if movies != [] {
      var init := movies[..|movies| - 1];
      assert forall i | 0 <= i < |init| :: init[i] == movies[i];
      WithoutMovieAbsent(init, id);
      assert init + [movies[|movies| - 1]] == movies;
    }
  }

  // ---- GET /movies/top and GET /movies/:id/votes --------------------------------------

  /** `GET /movies/top` (the admin check is made before the handler). */
  function TopMovies(t: Tables): (r: Response<seq<TopMovie>>)
    ensures r.Ok? && r.status == 200 && |r.body| <= 10
  {
    TopIsListingPrefix(t);
    Ok(200, Top(t))
  }

  /** `GET /movies/:id/votes`: the plain sums over the votes of that id, whether or not a
      movie has it; an id that is not an integer makes the query fail. */
  function MovieVotes(votes: seq<Vote>, id: Option<int>): (r: Response<Stats>)
    ensures id.None? <==> r == Err(500, Error("Failed to get votes"))
    ensures id.Some? ==> r == Ok(200, StatsFor(votes, id.value))
  {
    if id.None? then Err(500, Error("Failed to get votes"))
    else Ok(200, StatsFor(votes, id.value))
  }

  /** The reply's score is upvotes minus downvotes, and an id without votes, a movie's or
      not, gets {0, 0, 0} rather than 404. */
  lemma MovieVotesReport(votes: seq<Vote>, id: int)
    requires StoredVoteTypes(votes)
    ensures var s := MovieVotes(votes, Some(id)).body;
      s.score == s.upvotes - s.downvotes && s.upvotes >= 0 && s.downvotes >= 0
    ensures (forall v | v in votes :: v.movieId != id) ==> MovieVotes(votes, Some(id)) == Ok(200, NoStats())
  {
    ScoreIsUpMinusDown(votes, id);
    if forall v | v in votes :: v.movieId != id {
      NoRowsNoStats(votes, id);
    }
  }
}
