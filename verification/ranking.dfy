/** The movie listing and the leaderboard: `movies LEFT JOIN users LEFT JOIN votes LEFT
    JOIN comments`, grouped by movie and ordered by `score DESC, created_at DESC`. The join
    is modelled as the database evaluates it: each movie contributes one joined row per
    (vote row, comment row) pair, with a NULL standing in for an empty side, and the
    aggregates run over those joined rows. */
module Ranking {
  import opened Common
  import opened Store
  import opened Aggregates
  import opened Sorting

  // ---- The join ---------------------------------------------------------------------

  /** One row of the joined relation of a movie: a vote row or NULL, a comment row or NULL. */
  datatype JoinedRow = JoinedRow(vote: Option<Vote>, comment: Option<Comment>)

  /** The vote rows of movie m, in table order. */
  function VotesOn(votes: seq<Vote>, m: MovieId): (r: seq<Vote>)
    ensures forall v | v in r :: v in votes && v.movieId == m
  {
    if votes == [] then []
    else
      var last := votes[|votes| - 1];
      VotesOn(votes[..|votes| - 1], m) + (if last.movieId == m then [last] else [])
  }

  /** The comment rows of movie m, in table order. */
  function CommentsOn(comments: seq<Comment>, m: MovieId): (r: seq<Comment>)
    ensures forall c :: c in r <==> c in comments && c.movieId == m
    ensures |r| <= |comments|
  {
    if comments == [] then []
    else
      var last := comments[|comments| - 1];
      CommentsOn(comments[..|comments| - 1], m) + (if last.movieId == m then [last] else [])
  }

  /** The rows of one side of a join, each present. */
  function Present<T>(rows: seq<T>): (r: seq<Option<T>>)
    ensures |r| == |rows|
  {
    if rows == [] then [] else Present(rows[..|rows| - 1]) + [Some(rows[|rows| - 1])]
  }

  /** A LEFT JOIN side: the matching rows, or one NULL when there are none. */
  function VoteSide(votes: seq<Vote>, m: MovieId): seq<Option<Vote>>
  {
    var rows := VotesOn(votes, m);
    if rows == [] then [None] else Present(rows)
  }

  function CommentSide(comments: seq<Comment>, m: MovieId): (r: seq<Option<Comment>>)
    ensures |r| == Max(1, |CommentsOn(comments, m)|)
  {
    var rows := CommentsOn(comments, m);
    if rows == [] then [None] else Present(rows)
  }

  /** One vote-side entry paired with every comment-side entry. */
  function Block(v: Option<Vote>, cs: seq<Option<Comment>>): (r: seq<JoinedRow>)
    ensures |r| == |cs|
  {
    if cs == [] then [] else Block(v, cs[..|cs| - 1]) + [JoinedRow(v, cs[|cs| - 1])]
  }

  /** Every vote-side entry paired with every comment-side entry. */
  function Product(vs: seq<Option<Vote>>, cs: seq<Option<Comment>>): (r: seq<JoinedRow>)
    ensures |r| == |vs| * |cs|
  {
    if vs == [] then []
    else Product(vs[..|vs| - 1], cs) + Block(vs[|vs| - 1], cs)
  }

  /** The joined rows of movie m. */
  function JoinedRows(votes: seq<Vote>, comments: seq<Comment>, m: MovieId): seq<JoinedRow>
  {
    Product(VoteSide(votes, m), CommentSide(comments, m))
  }

  /** `COALESCE(SUM(...), 0)` of one column over joined rows; NULL votes add nothing. */
  function JoinedSum(rows: seq<JoinedRow>, c: Column): int
  {
    if rows == [] then 0
    else
      var last := rows[|rows| - 1];
      JoinedSum(rows[..|rows| - 1], c) + (if last.vote.Some? then Weight(c, last.vote.value.voteType) else 0)
  }

  /** The comment ids of the joined rows, NULLs skipped: what `COUNT(DISTINCT c.id)` counts. */
  function JoinedCommentIds(rows: seq<JoinedRow>): set<CommentId>
  {
    if rows == [] then {}
    else
      var last := rows[|rows| - 1];
      JoinedCommentIds(rows[..|rows| - 1]) + (if last.comment.Some? then {last.comment.value.id} else {})
  }

  // ---- What the join computes -------------------------------------------------------

  function SideSum(vs: seq<Option<Vote>>, c: Column): int
  {
    if vs == [] then 0
    else
      var last := vs[|vs| - 1];
      SideSum(vs[..|vs| - 1], c) + (if last.Some? then Weight(c, last.value.voteType) else 0)
  }

  lemma {:induction false} JoinedSumAppend(a: seq<JoinedRow>, b: seq<JoinedRow>, c: Column)
    ensures JoinedSum(a + b, c) == JoinedSum(a, c) + JoinedSum(b, c)
  {
    if b == [] {
      assert a + b == a;
    } else {
      assert (a + b)[..|a + b| - 1] == a + b[..|b| - 1];
      JoinedSumAppend(a, b[..|b| - 1], c);
    }
  }

  /** A block adds its vote once per row. */
  lemma {:induction false} BlockSum(v: Option<Vote>, cs: seq<Option<Comment>>, c: Column)
    ensures JoinedSum(Block(v, cs), c) == (if v.Some? then Weight(c, v.value.voteType) else 0) * |cs|
  {
    if cs != [] {
      var init := cs[..|cs| - 1];
      BlockSum(v, init, c);
      var w := if v.Some? then Weight(c, v.value.voteType) else 0;
      var b := Block(v, init);
      assert (b + [JoinedRow(v, cs[|cs| - 1])])[..|b|] == b;
      Distribute(|init|, 1, w);
    }
  }

  lemma Distribute(a: int, b: int, n: int)
    ensures (a + b) * n == a * n + b * n
  {
  }

  /** Every vote-side entry is counted once per comment-side entry. */
  lemma {:induction false} ProductSum(vs: seq<Option<Vote>>, cs: seq<Option<Comment>>, c: Column)
    ensures JoinedSum(Product(vs, cs), c) == SideSum(vs, c) * |cs|
  {
    if vs != [] {
      var init := vs[..|vs| - 1];
      var last := vs[|vs| - 1];
      ProductSum(init, cs, c);
      BlockSum(last, cs, c);
      JoinedSumAppend(Product(init, cs), Block(last, cs), c);
      var w := if last.Some? then Weight(c, last.value.voteType) else 0;
      Distribute(SideSum(init, c), w, |cs|);
    }
  }

  lemma {:induction false} VotesOnSum(votes: seq<Vote>, m: MovieId, c: Column)
    ensures SideSum(Present(VotesOn(votes, m)), c) == Sum(votes, m, c)
  {
    if votes != [] {
      var init := votes[..|votes| - 1];
      var last := votes[|votes| - 1];
      VotesOnSum(init, m, c);
      var r0 := VotesOn(init, m);
      if last.movieId == m {
        var p := Present(r0);
        assert (r0 + [last])[..|r0|] == r0;
        assert (p + [Some(last)])[..|p|] == p;
      } else {
        assert r0 + [] == r0;
      }
    }
  }

  lemma {:induction false} VotesOnEmpty(votes: seq<Vote>, m: MovieId)
    requires VotesOn(votes, m) == []
    ensures forall v | v in votes :: v.movieId != m
  {
    if votes != [] {
      VotesOnEmpty(votes[..|votes| - 1], m);
      assert votes == votes[..|votes| - 1] + [votes[|votes| - 1]];
    }
  }

  /** The vote side of the join sums to the plain per-movie sum. */
  lemma VoteSideSum(votes: seq<Vote>, m: MovieId, c: Column)
    ensures SideSum(VoteSide(votes, m), c) == Sum(votes, m, c)
  {
    if VotesOn(votes, m) == [] {
      VotesOnEmpty(votes, m);
      NoRowsNoSum(votes, m, c);
      var none: seq<Option<Vote>> := [None];
      assert none[..0] == [];
    } else {
      VotesOnSum(votes, m, c);
    }
  }

  /** The sums the listing and the leaderboard report for a movie count each of its votes
      once per comment it has (once when it has none). */
  lemma JoinScaling(votes: seq<Vote>, comments: seq<Comment>, m: MovieId, c: Column)
    ensures JoinedSum(JoinedRows(votes, comments, m), c) == Sum(votes, m, c) * Max(1, |CommentsOn(comments, m)|)
  {
    ProductSum(VoteSide(votes, m), CommentSide(comments, m), c);
    VoteSideSum(votes, m, c);
  }

  lemma {:induction false} JoinedIdsAppend(a: seq<JoinedRow>, b: seq<JoinedRow>)
    ensures JoinedCommentIds(a + b) == JoinedCommentIds(a) + JoinedCommentIds(b)
  {
    if b == [] {
      assert a + b == a;
    } else {
      assert (a + b)[..|a + b| - 1] == a + b[..|b| - 1];
      JoinedIdsAppend(a, b[..|b| - 1]);
    }
  }

  /** The ids of the present entries of a comment side. */
  function SideIds(cs: seq<Option<Comment>>): set<CommentId>
  {
    if cs == [] then {}
    else
      var last := cs[|cs| - 1];
      SideIds(cs[..|cs| - 1]) + (if last.Some? then {last.value.id} else {})
  }

  lemma {:induction false} BlockIds(v: Option<Vote>, cs: seq<Option<Comment>>)
    ensures JoinedCommentIds(Block(v, cs)) == SideIds(cs)
  {
    if cs != [] {
      var init := cs[..|cs| - 1];
      BlockIds(v, init);
      var b := Block(v, init);
      assert (b + [JoinedRow(v, cs[|cs| - 1])])[..|b|] == b;
    }
  }

  /** However many vote entries there are, the joined rows carry each comment id. */
  lemma {:induction false} ProductIds(vs: seq<Option<Vote>>, cs: seq<Option<Comment>>)
    requires vs != []
    ensures JoinedCommentIds(Product(vs, cs)) == SideIds(cs)
  {
    var init := vs[..|vs| - 1];
    var last := vs[|vs| - 1];
    BlockIds(last, cs);
    JoinedIdsAppend(Product(init, cs), Block(last, cs));
    if init != [] {
      ProductIds(init, cs);
    }
  }

  /** The ids of a sequence of comments. */
  function Ids(rows: seq<Comment>): set<CommentId>
  {
    if rows == [] then {} else Ids(rows[..|rows| - 1]) + {rows[|rows| - 1].id}
  }

  lemma {:induction false} IdsMember(rows: seq<Comment>, id: CommentId)
    requires id in Ids(rows)
    ensures exists k | 0 <= k < |rows| :: rows[k].id == id
  {
    var init := rows[..|rows| - 1];
    if id != rows[|rows| - 1].id {
      IdsMember(init, id);
      var k :| 0 <= k < |init| && init[k].id == id;
      assert rows[k] == init[k];
    }
  }

  lemma {:induction false} PresentIds(rows: seq<Comment>)
    ensures SideIds(Present(rows)) == Ids(rows)
  {
    if rows != [] {
      var init := rows[..|rows| - 1];
      PresentIds(init);
      var p := Present(init);
      assert (p + [Some(rows[|rows| - 1])])[..|p|] == p;
    }
  }

  lemma {:induction false} CommentsOnIdsWithin(comments: seq<Comment>, m: MovieId)
    ensures Ids(CommentsOn(comments, m)) <= Ids(comments)
  {
    if comments != [] {
      var init := comments[..|comments| - 1];
      var last := comments[|comments| - 1];
      CommentsOnIdsWithin(init, m);
      var r0 := CommentsOn(init, m);
      if last.movieId == m {
        assert (r0 + [last])[..|r0|] == r0;
      } else {
        assert r0 + [] == r0;
      }
    }
  }

  /** With unique comment ids, a movie has as many distinct comment ids as comments. */
  lemma {:induction false} CommentsOnDistinct(comments: seq<Comment>, m: MovieId)
    requires UniqueCommentIds(comments)
    ensures |Ids(CommentsOn(comments, m))| == |CommentsOn(comments, m)|
  {
    if comments != [] {
      var init := comments[..|comments| - 1];
      var last := comments[|comments| - 1];
      assert UniqueCommentIds(init);
      CommentsOnDistinct(init, m);
      var r0 := CommentsOn(init, m);
      if last.movieId == m {
        assert (r0 + [last])[..|r0|] == r0;
        CommentsOnIdsWithin(init, m);
        if last.id in Ids(init) {
          IdsMember(init, last.id);
        }
      } else {
        assert r0 + [] == r0;
      }
    }
  }

  /** `COUNT(DISTINCT c.id)` in the grouped row of a movie is its number of comments. */
  lemma CommentCount(votes: seq<Vote>, comments: seq<Comment>, m: MovieId)
    requires UniqueCommentIds(comments)
    ensures |JoinedCommentIds(JoinedRows(votes, comments, m))| == |CommentsOn(comments, m)|
  {
    ProductIds(VoteSide(votes, m), CommentSide(comments, m));
    if CommentsOn(comments, m) == [] {
      var none: seq<Option<Comment>> := [None];
      assert none[..0] == [];
    } else {
      PresentIds(CommentsOn(comments, m));
      CommentsOnDistinct(comments, m);
    }
  }

  // ---- The grouped rows -------------------------------------------------------------

  /** `u.name` of the LEFT JOIN on users: NULL when the adder has no users row. */
  function AdderName(users: map<UserId, User>, id: UserId): Option<string>
  {
    if id in users then Some(users[id].name) else None
  }

  /** A row of `GET /api/movies`; `userVote` is absent until the caller's votes are merged. */
  datatype ListedMovie = ListedMovie(
    id: MovieId, title: string, description: string, createdAt: Timestamp, addedBy: UserId,
    addedByName: Option<string>, score: int, commentCount: int, userVote: Option<int>)

  /** A row of `GET /api/movies/top`. */
  datatype TopMovie = TopMovie(
    id: MovieId, title: string, description: string, createdAt: Timestamp,
    addedByName: Option<string>, upvotes: int, downvotes: int, score: int, commentCount: int)

  /** The group of movie mv in the listing query. */
  function ListedRow(t: Tables, mv: Movie): ListedMovie
  {
    var rows := JoinedRows(t.votes, t.comments, mv.id);
    ListedMovie(mv.id, mv.title, mv.description, mv.createdAt, mv.addedBy,
      AdderName(t.users, mv.addedBy), JoinedSum(rows, Score), |JoinedCommentIds(rows)|, None)
  }

  /** The group of movie mv in the leaderboard query. */
  function TopRow(t: Tables, mv: Movie): TopMovie
  {
    var rows := JoinedRows(t.votes, t.comments, mv.id);
    TopMovie(mv.id, mv.title, mv.description, mv.createdAt, AdderName(t.users, mv.addedBy),
      JoinedSum(rows, Upvotes), JoinedSum(rows, Downvotes), JoinedSum(rows, Score),
      |JoinedCommentIds(rows)|)
  }

  /** The listing group of each movie, as a function of the movie. */
  function ListedRowOf(t: Tables): Movie -> ListedMovie
  {
    mv => ListedRow(t, mv)
  }

  function TopRowOf(t: Tables): Movie -> TopMovie
  {
    mv => TopRow(t, mv)
  }

  /** `ORDER BY score DESC, m.created_at DESC` */
  function ListedKey(r: ListedMovie): Key { Key(r.score, r.createdAt) }

  function TopKey(r: TopMovie): Key { Key(r.score, r.createdAt) }

  /** The listing query: every group, ordered. */
  function Listing(t: Tables): seq<ListedMovie>
  {
    Sort(MapSeq(ListedRowOf(t), t.movies), ListedKey)
  }

  /** The leaderboard query: the same order, `LIMIT 10`. */
  function Top(t: Tables): seq<TopMovie>
  {
    var ranked := Sort(MapSeq(TopRowOf(t), t.movies), TopKey);
    ranked[..if |ranked| < 10 then |ranked| else 10]
  }

  // ---- Properties of the listing ------------------------------------------------------

  /** The listing holds exactly one entry per movie: the movie's group. */
  lemma ListingEntries(t: Tables)
    ensures forall mv | mv in t.movies :: ListedRow(t, mv) in Listing(t)
    ensures forall r | r in Listing(t) :: exists mv | mv in t.movies :: r == ListedRow(t, mv)
  {
    MapMembers(ListedRowOf(t), t.movies);
    SortMembers(MapSeq(ListedRowOf(t), t.movies), ListedKey);
  }

  /** The listing has one entry per movie; entries come by score, highest first, and
      among equal scores the newest first. */
  lemma ListingOrdered(t: Tables)
    ensures |Listing(t)| == |t.movies|
    ensures forall i, j | 0 <= i < j < |Listing(t)| ::
      Listing(t)[i].score > Listing(t)[j].score ||
      (Listing(t)[i].score == Listing(t)[j].score && Listing(t)[i].createdAt >= Listing(t)[j].createdAt)
  {
    var r := Listing(t);
    assert forall i, j | 0 <= i < j < |r| :: NotBelow(ListedKey(r[i]), ListedKey(r[j]));
  }

  /** What a group reports: the movie's comment count and its vote score counted once per
      comment; a movie with neither votes nor comments reports 0 and 0. */
  lemma ListedFigures(t: Tables, mv: Movie)
    requires UniqueCommentIds(t.comments)
    ensures ListedRow(t, mv).commentCount == |CommentsOn(t.comments, mv.id)|
    ensures ListedRow(t, mv).score == Sum(t.votes, mv.id, Score) * Max(1, |CommentsOn(t.comments, mv.id)|)
    ensures ListedRow(t, mv).userVote.None?
  {
    CommentCount(t.votes, t.comments, mv.id);
    JoinScaling(t.votes, t.comments, mv.id, Score);
  }

  lemma {:induction false} NoCommentsOn(comments: seq<Comment>, m: MovieId)
    requires forall c | c in comments :: c.movieId != m
    ensures CommentsOn(comments, m) == []
  {
    if comments != [] {
      NoCommentsOn(comments[..|comments| - 1], m);
    }
  }

  /** A movie with neither votes nor comments is listed with score 0 and no comments. */
  lemma QuietMovie(t: Tables, mv: Movie)
    requires forall v | v in t.votes :: v.movieId != mv.id
    requires forall c | c in t.comments :: c.movieId != mv.id
    ensures ListedRow(t, mv).score == 0 && ListedRow(t, mv).commentCount == 0
  {
    NoCommentsOn(t.comments, mv.id);
    ProductIds(VoteSide(t.votes, mv.id), CommentSide(t.comments, mv.id));
    var none: seq<Option<Comment>> := [None];
    assert none[..0] == [];
    JoinScaling(t.votes, t.comments, mv.id, Score);
    NoRowsNoSum(t.votes, mv.id, Score);
  }

  function ListedId(r: ListedMovie): int { r.id }

  function TopId(r: TopMovie): int { r.id }

  /** The leaderboard is the first min(10, n) entries of the listing: the same movies with
      the same scores, in the same places. */
  lemma TopIsListingPrefix(t: Tables)
    ensures |Top(t)| == if |t.movies| < 10 then |t.movies| else 10
    ensures forall i | 0 <= i < |Top(t)| ::
      Top(t)[i].id == Listing(t)[i].id && Top(t)[i].score == Listing(t)[i].score &&
      Top(t)[i].createdAt == Listing(t)[i].createdAt
  {
    var ls := MapSeq(ListedRowOf(t), t.movies);
    var ts := MapSeq(TopRowOf(t), t.movies);
    SortAligned(ls, ts, ListedKey, TopKey, ListedId, TopId);
    var top := Top(t);
    var sl := Sort(ls, ListedKey);
    var st := Sort(ts, TopKey);
    forall i | 0 <= i < |top|
      ensures top[i].id == sl[i].id && top[i].score == sl[i].score && top[i].createdAt == sl[i].createdAt
    {
      assert top[i] == st[i];
      assert ListedKey(sl[i]) == TopKey(st[i]) && ListedId(sl[i]) == TopId(st[i]);
    }
  }

  /** A leaderboard group reports upvotes minus downvotes as its score, both counts
      non-negative. */
  lemma TopRowBalance(t: Tables, mv: Movie)
    requires StoredVoteTypes(t.votes)
    ensures var r := TopRow(t, mv); r.upvotes - r.downvotes == r.score && r.upvotes >= 0 && r.downvotes >= 0
  {
    var n := Max(1, |CommentsOn(t.comments, mv.id)|);
    JoinScaling(t.votes, t.comments, mv.id, Upvotes);
    JoinScaling(t.votes, t.comments, mv.id, Downvotes);
    JoinScaling(t.votes, t.comments, mv.id, Score);
    ScoreIsUpMinusDown(t.votes, mv.id);
    Scaled(Sum(t.votes, mv.id, Upvotes), Sum(t.votes, mv.id, Downvotes), Sum(t.votes, mv.id, Score), n);
  }

  lemma Scaled(up: int, down: int, score: int, n: int)
    requires score == up - down && up >= 0 && down >= 0 && n >= 1
    ensures score * n == up * n - down * n && up * n >= 0 && down * n >= 0
  {
  }

  /** Every leaderboard entry reports upvotes minus downvotes as its score. */
  lemma TopBalanced(t: Tables)
    requires StoredVoteTypes(t.votes)
    ensures forall r | r in Top(t) :: r.upvotes - r.downvotes == r.score && r.upvotes >= 0 && r.downvotes >= 0
  {
    var ts := MapSeq(TopRowOf(t), t.movies);
    MapMembers(TopRowOf(t), t.movies);
    SortMembers(ts, TopKey);
    var st := Sort(ts, TopKey);
    forall r | r in Top(t) ensures r.upvotes - r.downvotes == r.score && r.upvotes >= 0 && r.downvotes >= 0 {
      assert r in st;
      var mv :| mv in t.movies && r == TopRow(t, mv);
      TopRowBalance(t, mv);
    }
  }
}
