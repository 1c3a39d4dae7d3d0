/** The admin page: the leaderboard and full list it holds, the totals it shows over the
    full list, and the delete button. */
module AdminDashboardPage {
  import opened Common
  import opened Sorting
  import opened Store
  import opened Ranking
  import opened ClientData

  /** `allMovies.reduce((sum, movie) => sum + f(movie), 0)`. */
  function Total(movies: seq<ClientMovie>, f: ClientMovie -> int): int
  {
    if movies == [] then 0 else Total(movies[..|movies| - 1], f) + f(movies[|movies| - 1])
  }

  /** `(movie.upvotes || 0) + (movie.downvotes || 0)`. */
  function VotesOf(m: ClientMovie): int { OrZero(m.upvotes) + OrZero(m.downvotes) }

  /** `movie.comment_count || 0`. */
  function CommentsOf(m: ClientMovie): int { OrZero(m.commentCount) }

  /** The integer figures of `stats` (the average score is a float and is not modelled). */
  datatype DashboardStats = DashboardStats(totalMovies: int, totalVotes: int, totalComments: int)

  function StatsOf(allMovies: seq<ClientMovie>): DashboardStats
  {
    DashboardStats(|allMovies|, Total(allMovies, VotesOf), Total(allMovies, CommentsOf))
  }

  /** The totals are additive over a split of the list. */
  lemma {:induction false} TotalAppend(a: seq<ClientMovie>, b: seq<ClientMovie>, f: ClientMovie -> int)
    ensures Total(a + b, f) == Total(a, f) + Total(b, f)
  {
    if b == [] {
      assert a + b == a;
    } else {
      var init := b[..|b| - 1];
      assert (a + b)[..|a + b| - 1] == a + init;
      TotalAppend(a, init, f);
    }
  }

  /** `list.filter(movie => movie.id === id)`: the entries a delete removes. */
  function Only(movies: seq<ClientMovie>, id: int): seq<ClientMovie>
  {
    if movies == [] then []
    else
      var kept := Only(movies[..|movies| - 1], id);
      var last := movies[|movies| - 1];
      if last.id == id then kept + [last] else kept
  }

  /** After a delete the totals drop by exactly the figures of the removed entries. */
  lemma {:induction false} TotalWithout(movies: seq<ClientMovie>, id: int, f: ClientMovie -> int)
    ensures Total(movies, f) == Total(Without(movies, id, MovieIdOf), f) + Total(Only(movies, id), f)
  {
    if movies != [] {
      var init := movies[..|movies| - 1];
      var last := movies[|movies| - 1];
      TotalWithout(init, id, f);
      if last.id == id {
        TotalAppend(Only(init, id), [last], f);
      } else {
        TotalAppend(Without(init, id, MovieIdOf), [last], f);
      }
    }
  }

  /** Entries that carry neither upvotes nor downvotes add nothing to the vote total. */
  lemma {:induction false} NoCountsNoVotes(movies: seq<ClientMovie>)
    requires forall m | m in movies :: m.upvotes.None? && m.downvotes.None?
    ensures Total(movies, VotesOf) == 0
  {
    if movies != [] {
      var init := movies[..|movies| - 1];
      assert forall m | m in init :: m in movies;
      NoCountsNoVotes(init);
    }
  }

  /** The full list is fed by the movie listing, whose rows have no upvotes or downvotes
      fields, so the dashboard's vote total over it is always 0, and its movie total is
      the number of movies. */
  lemma ListingVoteTotal(t: Tables)
    ensures StatsOf(MapSeq(FromListed, Listing(t))).totalVotes == 0
    ensures StatsOf(MapSeq(FromListed, Listing(t))).totalMovies == |t.movies|
  {
    var all := MapSeq(FromListed, Listing(t));
    forall m | m in all ensures m.upvotes.None? && m.downvotes.None? {
      var i :| 0 <= i < |all| && all[i] == m;
    }
    NoCountsNoVotes(all);
    ListingOrdered(t);
  }

  class AdminDashboard {
    var topMovies: seq<ClientMovie>
    var allMovies: seq<ClientMovie>

    /** The state once both fetches have answered. */
    constructor (topMovies: seq<ClientMovie>, allMovies: seq<ClientMovie>)
      ensures this.topMovies == topMovies && this.allMovies == allMovies
    {
      this.topMovies := topMovies;
      this.allMovies := allMovies;
    }

    /** `handleDeleteMovie(id)`: `confirmed` is the answer to the confirmation and
        `deleted` whether the delete request succeeds. Returns whether a request is made;
        both lists lose the id only after a successful delete. */
    method DeleteMovie(id: int, confirmed: bool, deleted: bool) returns (requested: bool)
      modifies this
      ensures requested == confirmed
      ensures confirmed && deleted ==>
        allMovies == Without(old(allMovies), id, MovieIdOf) && topMovies == Without(old(topMovies), id, MovieIdOf)
      ensures !(confirmed && deleted) ==> allMovies == old(allMovies) && topMovies == old(topMovies)
    {
      if !confirmed {
        return false;
      }
      requested := true;
      if deleted {
        allMovies := Without(allMovies, id, MovieIdOf);
        topMovies := Without(topMovies, id, MovieIdOf);
      }
    }
  }
}
