/** The vote aggregates of the API: the per-movie `{upvotes, downvotes, score}` triple
    that `SELECT COALESCE(SUM(...), 0) ... FROM votes WHERE movie_id = $1` computes, and
    the lookup of one user's vote. Nothing is materialised: every figure is a function of
    the votes table. */
module Aggregates {
  import opened Common
  import opened Store

  datatype Stats = Stats(upvotes: int, downvotes: int, score: int)

  function NoStats(): Stats { Stats(0, 0, 0) }

  function Plus(a: Stats, b: Stats): Stats
  {
    Stats(a.upvotes + b.upvotes, a.downvotes + b.downvotes, a.score + b.score)
  }

  /** The three sums of the stats query. */
  datatype Column = Upvotes | Downvotes | Score

  /** What a row whose vote_type is `t` adds to a column: `CASE WHEN vote_type = 1 THEN 1
      ELSE 0 END`, `CASE WHEN vote_type = -1 THEN 1 ELSE 0 END`, or `vote_type` itself. */
  function Weight(c: Column, t: int): int
  {
    match c
    case Upvotes => if t == 1 then 1 else 0
    case Downvotes => if t == -1 then 1 else 0
    case Score => t
  }

  /** What one row whose vote_type is `t` adds to the three sums. */
  function Contribution(t: int): Stats
  {
    Stats(Weight(Upvotes, t), Weight(Downvotes, t), Weight(Score, t))
  }

  /** `COALESCE(SUM(...), 0)` of one column over the rows with `movie_id = m`. */
  function Sum(votes: seq<Vote>, m: MovieId, w: Column): int
  {
    if votes == [] then 0
    else
      var last := votes[|votes| - 1];
      Sum(votes[..|votes| - 1], m, w) + (if last.movieId == m then Weight(w, last.voteType) else 0)
  }

  /** The stats query for movie `m`: the three sums over its vote rows, 0 when there are
      none. */
  function StatsFor(votes: seq<Vote>, m: MovieId): Stats
  {
    Stats(Sum(votes, m, Upvotes), Sum(votes, m, Downvotes), Sum(votes, m, Score))
  }

  /** Since a stored vote is +1 or -1, the score is always upvotes minus downvotes, and
      both counts are non-negative. */
  lemma {:induction false} ScoreIsUpMinusDown(votes: seq<Vote>, m: MovieId)
    requires StoredVoteTypes(votes)
    ensures var s := StatsFor(votes, m); s.score == s.upvotes - s.downvotes
    ensures var s := StatsFor(votes, m); s.upvotes >= 0 && s.downvotes >= 0
  {
    if votes != [] {
      var init := votes[..|votes| - 1];
      assert forall i | 0 <= i < |init| :: init[i] == votes[i];
      ScoreIsUpMinusDown(init, m);
    }
  }

  /** A movie without vote rows (existing or not) has stats {0, 0, 0}. */
  lemma NoRowsNoStats(votes: seq<Vote>, m: MovieId)
    requires forall v | v in votes :: v.movieId != m
    ensures StatsFor(votes, m) == NoStats()
  {
    NoRowsNoSum(votes, m, Upvotes);
    NoRowsNoSum(votes, m, Downvotes);
    NoRowsNoSum(votes, m, Score);
  }

  lemma {:induction false} NoRowsNoSum(votes: seq<Vote>, m: MovieId, w: Column)
    requires forall v | v in votes :: v.movieId != m
    ensures Sum(votes, m, w) == 0
  {
    if votes != [] {
      NoRowsNoSum(votes[..|votes| - 1], m, w);
    }
  }

  /** The sums are additive over a split of the table. */
  lemma StatsAppend(a: seq<Vote>, b: seq<Vote>, m: MovieId)
    ensures StatsFor(a + b, m) == Plus(StatsFor(a, m), StatsFor(b, m))
  {
    SumAppend(a, b, m, Upvotes);
    SumAppend(a, b, m, Downvotes);
    SumAppend(a, b, m, Score);
  }

  lemma {:induction false} SumAppend(a: seq<Vote>, b: seq<Vote>, m: MovieId, w: Column)
    ensures Sum(a + b, m, w) == Sum(a, m, w) + Sum(b, m, w)
  {
    if b != [] {
      var init := b[..|b| - 1];
      assert (a + b)[..|a + b| - 1] == a + init;
      SumAppend(a, init, m, w);
    } else {
      assert a + b == a;
    }
  }

  /** The user's current vote on the movie: the stored vote_type, or 0 without a row. */
  function CurrentVote(votes: seq<Vote>, u: UserId, m: MovieId): int
  {
    var row := RowOf(votes, u, m);
    if row.Some? then row.value.voteType else 0
  }

  /** How many rows the table holds for (u, m). */
  function RowCount(votes: seq<Vote>, u: UserId, m: MovieId): nat
  {
    if votes == [] then 0
    else RowCount(votes[..|votes| - 1], u, m) + (if SameKey(votes[|votes| - 1], u, m) then 1 else 0)
  }

  /** Under the uniqueness constraint a key has at most one row, and it has one exactly
      when the lookup finds it. */
  lemma {:induction false} UniqueKeyCount(votes: seq<Vote>, u: UserId, m: MovieId)
    requires UniqueVoteKeys(votes)
    ensures RowCount(votes, u, m) == if RowOf(votes, u, m).Some? then 1 else 0
  {
    if votes != [] {
      var init := votes[..|votes| - 1];
      assert forall i | 0 <= i < |init| :: init[i] == votes[i];
      UniqueKeyCount(init, u, m);
      if SameKey(votes[|votes| - 1], u, m) {
        assert RowOf(init, u, m).None?;
      }
    }
  }
}
