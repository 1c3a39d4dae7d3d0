/** The home page's movie list: the `movies` and `showAddMovie` state of the MovieList
    component and the three handlers that replace it. */
module MovieListComponent {
  import opened Common
  import opened Sorting
  import opened ClientData

  /** What a card hands up after a vote: the server's stats and the vote it sent. */
  datatype VoteData = VoteData(upvotes: int, downvotes: int, score: int, userVote: int)

  /** `{ ...movie, ...voteData }`: the four fields of the vote data override the entry's. */
  function Merge(m: ClientMovie, vd: VoteData): ClientMovie
  {
    m.(score := Some(vd.score), upvotes := Some(vd.upvotes), downvotes := Some(vd.downvotes), userVote := Some(vd.userVote))
  }

  /** The callback of `movies.map`: merge into the entry with the voted id only. */
  function MergeAt(id: int, vd: VoteData): ClientMovie -> ClientMovie
  {
    (m: ClientMovie) => if m.id == id then Merge(m, vd) else m
  }

  /** The comparator `(b.score || 0) - (a.score || 0)`: by score alone, descending, a
      missing score counting as 0. `Array.prototype.sort` is stable, so ties keep their
      order. */
  function ByScore(m: ClientMovie): Key { Key(OrZero(m.score), 0) }

  /** The list after `handleVoteUpdate(id, voteData)`. */
  function VoteUpdated(movies: seq<ClientMovie>, id: int, vd: VoteData): seq<ClientMovie>
  {
    Sort(MapSeq(MergeAt(id, vd), movies), ByScore)
  }

  /** After a vote update the list is ordered by score, highest first, a missing score
      counting as 0. */
  lemma VoteUpdateOrdered(movies: seq<ClientMovie>, id: int, vd: VoteData)
    ensures var r := VoteUpdated(movies, id, vd);
      forall i, j | 0 <= i < j < |r| :: OrZero(r[i].score) >= OrZero(r[j].score)
  {
    var r := VoteUpdated(movies, id, vd);
    forall i, j | 0 <= i < j < |r| ensures OrZero(r[i].score) >= OrZero(r[j].score) {
      assert NotBelow(ByScore(r[i]), ByScore(r[j]));
    }
  }

  /** A vote update changes only the entry with the voted id, and only by merging the vote
      data into it: every other entry is kept as it was, and nothing is added or lost. */
  lemma VoteUpdateEntries(movies: seq<ClientMovie>, id: int, vd: VoteData)
    ensures var r := VoteUpdated(movies, id, vd);
      && (forall x | x in r && x.id != id :: x in movies)
      && (forall y | y in movies && y.id != id :: y in r)
      && (forall y | y in movies && y.id == id :: Merge(y, vd) in r)
      && (forall x | x in r && x.id == id :: exists y | y in movies && y.id == id :: x == Merge(y, vd))
  {
    var merged := MapSeq(MergeAt(id, vd), movies);
    MergedMembers(movies, id, vd);
    SortMembers(merged, ByScore);
  }

  lemma MergedMembers(movies: seq<ClientMovie>, id: int, vd: VoteData)
    ensures var merged := MapSeq(MergeAt(id, vd), movies);
      && (forall x | x in merged && x.id != id :: x in movies)
      && (forall y | y in movies && y.id != id :: y in merged)
      && (forall y | y in movies && y.id == id :: Merge(y, vd) in merged)
      && (forall x | x in merged && x.id == id :: exists y | y in movies && y.id == id :: x == Merge(y, vd))
  {
    var merged := MapSeq(MergeAt(id, vd), movies);
    forall x | x in merged ensures exists y | y in movies :: x == MergeAt(id, vd)(y) && x.id == y.id {
      var i :| 0 <= i < |merged| && merged[i] == x;
      assert movies[i] in movies;
    }
    forall y | y in movies ensures MergeAt(id, vd)(y) in merged {
      var i :| 0 <= i < |movies| && movies[i] == y;
      assert merged[i] == MergeAt(id, vd)(y);
    }
  }

  /** A vote update reorders the list: it has the same length and the same multiset of ids. */
  lemma VoteUpdateIds(movies: seq<ClientMovie>, id: int, vd: VoteData)
    ensures |VoteUpdated(movies, id, vd)| == |movies|
    ensures Bag(VoteUpdated(movies, id, vd), MovieIdOf) == Bag(movies, MovieIdOf)
  {
    var merged := MapSeq(MergeAt(id, vd), movies);
    SortBag(merged, ByScore, MovieIdOf);
    MergeKeepsIds(movies, id, vd);
  }

  lemma {:induction false} MergeKeepsIds(movies: seq<ClientMovie>, id: int, vd: VoteData)
    ensures Bag(MapSeq(MergeAt(id, vd), movies), MovieIdOf) == Bag(movies, MovieIdOf)
  {
    if movies != [] {
      MergeKeepsIds(movies[1..], id, vd);
    }
  }

  /** The client orders by score only, where the server also orders by creation time: two
      movies with equal scores stay in list order after a vote update even when the older
      one comes first, the order the server's listing never produces. */
  lemma ClientTieOrder()
    ensures
      var older := ClientMovie(1, "A", 1, Some(0), None, None, Some(0), None);
      var newer := ClientMovie(2, "B", 2, Some(0), None, None, Some(0), None);
      var r := VoteUpdated([older, newer], 3, VoteData(0, 0, 0, 0));
      r == [older, newer] && !NotBelow(Key(0, r[0].createdAt), Key(0, r[1].createdAt))
  {
    var older := ClientMovie(1, "A", 1, Some(0), None, None, Some(0), None);
    var newer := ClientMovie(2, "B", 2, Some(0), None, None, Some(0), None);
    var merged := MapSeq(MergeAt(3, VoteData(0, 0, 0, 0)), [older, newer]);
    assert merged == [older, newer];
    SortSorted(merged, ByScore);
  }

  /** After a vote the list mixes two kinds of score: the voted entry takes the vote
      route's plain sum, while the others keep the listing's sum scaled by their comment
      count. Here A is listed with 4 (plain 1, four comments) ahead of B with 3 (plain 3,
      no comments); an upvote raises A's plain sum to 2, and the re-sort puts A below B,
      although the server's next listing ranks A at 2 * 4 = 8, first. */
  lemma MixedScores()
    ensures
      var a := ClientMovie(1, "A", 1, Some(4), None, None, Some(4), Some(0));
      var b := ClientMovie(2, "B", 2, Some(3), None, None, Some(0), Some(0));
      var r := VoteUpdated([a, b], 1, VoteData(2, 0, 2, 1));
      && NotBelow(ByScore(a), ByScore(b))
      && r == [b, Merge(a, VoteData(2, 0, 2, 1))]
  {
    var a := ClientMovie(1, "A", 1, Some(4), None, None, Some(4), Some(0));
    var b := ClientMovie(2, "B", 2, Some(3), None, None, Some(0), Some(0));
    var vd := VoteData(2, 0, 2, 1);
    var merged := MapSeq(MergeAt(1, vd), [a, b]);
    assert merged == [Merge(a, vd), b];
    SortUnfold(merged, ByScore);
    SortUnfold(merged[1..], ByScore);
    assert merged[1..][1..] == [];
  }

  class MovieList {
    var movies: seq<ClientMovie>
    var showAddMovie: bool

    /** The initial state: an empty list with the add form closed. */
    constructor ()
      ensures movies == [] && !showAddMovie
    {
      movies := [];
      showAddMovie := false;
    }

    /** `handleMovieAdded`: the new movie goes first, without re-sorting, and the add form
        closes. */
    method MovieAdded(m: ClientMovie)
      modifies this
      ensures movies == [m] + old(movies)
      ensures !showAddMovie
    {
      movies := [m] + movies;
      showAddMovie := false;
    }

    /** `handleVoteUpdate`: merge and re-sort. */
    method VoteUpdate(id: int, vd: VoteData)
      modifies this
      ensures movies == VoteUpdated(old(movies), id, vd)
      ensures showAddMovie == old(showAddMovie)
    {
      movies := VoteUpdated(movies, id, vd);
    }

    /** `handleMovieDelete` once the delete request has settled (`deleted` is whether it
        succeeded): the entry goes only after a success; a failure leaves the list and is
        rethrown. */
    method MovieDelete(id: int, deleted: bool) returns (rethrown: bool)
      modifies this
      ensures rethrown == !deleted
      ensures movies == if deleted then Without(old(movies), id, MovieIdOf) else old(movies)
      ensures showAddMovie == old(showAddMovie)
    {
      if deleted {
        movies := Without(movies, id, MovieIdOf);
        rethrown := false;
      } else {
        rethrown := true;
      }
    }
  }
}
