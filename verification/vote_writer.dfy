/** The vote writer, `POST /votes`: validate the request, check that the movie exists,
    delete the caller's row for vote_type 0 or upsert it for +1/-1, and read the movie's
    fresh stats, all inside one transaction. */
module VoteWriter {
  import opened Common
  import opened Store
  import opened Aggregates

  /** The `DO UPDATE SET vote_type = t, created_at = NOW()` branch of the upsert: the
      row(s) with key (u, m) take the new type and time; every other row is kept. */
  function Overwrite(votes: seq<Vote>, u: UserId, m: MovieId, t: int, now: Timestamp): (r: seq<Vote>)
    ensures |r| == |votes|
  {
    if votes == [] then []
    else
      var last := votes[|votes| - 1];
      Overwrite(votes[..|votes| - 1], u, m, t, now)
        + [if SameKey(last, u, m) then last.(voteType := t, createdAt := now) else last]
  }

  /** `INSERT ... ON CONFLICT (user_id, movie_id) DO UPDATE ...`: overwrite the existing
      row for (u, m), or append a new one when there is none. */
  function Upsert(votes: seq<Vote>, u: UserId, m: MovieId, t: int, now: Timestamp): seq<Vote>
  {
    if RowOf(votes, u, m).Some? then Overwrite(votes, u, m, t, now)
    else votes + [Vote(u, m, t, now)]
  }

  /** `DELETE FROM votes WHERE user_id = u AND movie_id = m`. */
  function Delete(votes: seq<Vote>, u: UserId, m: MovieId): seq<Vote>
  {
    if votes == [] then []
    else
      var last := votes[|votes| - 1];
      var kept := Delete(votes[..|votes| - 1], u, m);
      if SameKey(last, u, m) then kept else kept + [last]
  }

  /** The write a validated request performs: 0 deletes, +1/-1 upserts. */
  function ApplyVote(votes: seq<Vote>, u: UserId, m: MovieId, t: int, now: Timestamp): seq<Vote>
  {
    if t == 0 then Delete(votes, u, m) else Upsert(votes, u, m, t, now)
  }

  // ---- Row-level facts -------------------------------------------------------------

  /** Appending a row keeps the table unique exactly when its key is new. */
  lemma UniqueSnoc(votes: seq<Vote>, x: Vote)
    ensures UniqueVoteKeys(votes + [x]) <==> UniqueVoteKeys(votes) && RowOf(votes, x.userId, x.movieId).None?
  {
    assert (votes + [x])[..|votes|] == votes;
  }

  /** Deleting (u, m) leaves no row for it and every other key's row as it was. */
  lemma {:induction false} DeleteRows(votes: seq<Vote>, u: UserId, m: MovieId, u': UserId, m': MovieId)
    ensures RowOf(Delete(votes, u, m), u', m') == if u' == u && m' == m then None else RowOf(votes, u', m')
  {
    if votes != [] {
      var init := votes[..|votes| - 1];
      var last := votes[|votes| - 1];
      DeleteRows(init, u, m, u', m');
      var d := Delete(init, u, m);
      if !SameKey(last, u, m) {
        assert (d + [last])[..|d|] == d;
      } else {
        assert d + [] == d;
      }
    }
  }

  /** Removing a vote that does not exist changes nothing. */
  lemma {:induction false} DeleteAbsent(votes: seq<Vote>, u: UserId, m: MovieId)
    requires RowOf(votes, u, m).None?
    ensures Delete(votes, u, m) == votes
  {
    if votes != [] {
      var init := votes[..|votes| - 1];
      DeleteAbsent(init, u, m);
      assert init + [votes[|votes| - 1]] == votes;
    }
  }

  lemma {:induction false} DeleteKeepsInvariants(votes: seq<Vote>, u: UserId, m: MovieId)
    requires UniqueVoteKeys(votes) && StoredVoteTypes(votes)
    ensures UniqueVoteKeys(Delete(votes, u, m)) && StoredVoteTypes(Delete(votes, u, m))
  {
    if votes != [] {
      var init := votes[..|votes| - 1];
      var last := votes[|votes| - 1];
      assert init + [last] == votes;
      UniqueSnoc(init, last);
      DeleteKeepsInvariants(init, u, m);
      var d := Delete(init, u, m);
      if !SameKey(last, u, m) {
        DeleteRows(init, u, m, last.userId, last.movieId);
        UniqueSnoc(d, last);
      } else {
        assert d + [] == d;
      }
    }
  }

  /** Overwriting (u, m) gives its row the new type and time and leaves every other
      key's row as it was. */
  lemma {:induction false} OverwriteRows(votes: seq<Vote>, u: UserId, m: MovieId, t: int, now: Timestamp, u': UserId, m': MovieId)
    ensures RowOf(Overwrite(votes, u, m, t, now), u', m') ==
      if u' == u && m' == m then
        (if RowOf(votes, u, m).Some? then Some(Vote(u, m, t, now)) else None)
      else RowOf(votes, u', m')
  {
    if votes != [] {
      var init := votes[..|votes| - 1];
      var last := votes[|votes| - 1];
      OverwriteRows(init, u, m, t, now, u', m');
      var o := Overwrite(init, u, m, t, now);
      var x := if SameKey(last, u, m) then last.(voteType := t, createdAt := now) else last;
      assert (o + [x])[..|o|] == o;
    }
  }

  lemma {:induction false} OverwriteKeepsInvariants(votes: seq<Vote>, u: UserId, m: MovieId, t: int, now: Timestamp)
    requires UniqueVoteKeys(votes) && StoredVoteTypes(votes) && IsStoredVoteType(t)
    ensures UniqueVoteKeys(Overwrite(votes, u, m, t, now)) && StoredVoteTypes(Overwrite(votes, u, m, t, now))
  {
    if votes != [] {
      var init := votes[..|votes| - 1];
      var last := votes[|votes| - 1];
      assert init + [last] == votes;
      UniqueSnoc(init, last);
      OverwriteKeepsInvariants(init, u, m, t, now);
      var o := Overwrite(init, u, m, t, now);
      var x := if SameKey(last, u, m) then last.(voteType := t, createdAt := now) else last;
      OverwriteRows(init, u, m, t, now, last.userId, last.movieId);
      UniqueSnoc(o, x);
    }
  }

  /** A table in which (u, m) has no row is left alone by the overwrite. */
  lemma {:induction false} OverwriteAbsent(votes: seq<Vote>, u: UserId, m: MovieId, t: int, now: Timestamp)
    requires RowOf(votes, u, m).None?
    ensures Overwrite(votes, u, m, t, now) == votes
  {
    if votes != [] {
      var init := votes[..|votes| - 1];
      OverwriteAbsent(init, u, m, t, now);
      assert init + [votes[|votes| - 1]] == votes;
    }
  }

  /** Every row the overwrite touches is a row of (u, m): without them, the table is
      unchanged, in the same order. */
  lemma {:induction false} OverwriteThenDelete(votes: seq<Vote>, u: UserId, m: MovieId, t: int, now: Timestamp)
    ensures Delete(Overwrite(votes, u, m, t, now), u, m) == Delete(votes, u, m)
  {
    if votes != [] {
      var init := votes[..|votes| - 1];
      var last := votes[|votes| - 1];
      OverwriteThenDelete(init, u, m, t, now);
      var o := Overwrite(init, u, m, t, now);
      var x := if SameKey(last, u, m) then last.(voteType := t, createdAt := now) else last;
      assert (o + [x])[..|o|] == o;
    }
  }

  // ---- What a submission does to the table --------------------------------------

  /** A submission keeps the table's constraints: one row per (user, movie), and only
      +1 or -1 stored (0 is never persisted). */
  lemma ApplyVoteKeepsInvariants(votes: seq<Vote>, u: UserId, m: MovieId, t: int, now: Timestamp)
    requires UniqueVoteKeys(votes) && StoredVoteTypes(votes)
    requires t == 1 || t == -1 || t == 0
    ensures UniqueVoteKeys(ApplyVote(votes, u, m, t, now)) && StoredVoteTypes(ApplyVote(votes, u, m, t, now))
  {
    if t == 0 {
      DeleteKeepsInvariants(votes, u, m);
    } else if RowOf(votes, u, m).Some? {
      OverwriteKeepsInvariants(votes, u, m, t, now);
    } else {
      UniqueSnoc(votes, Vote(u, m, t, now));
    }
  }

  /** After a submission the caller's row for the movie holds the applied vote (none for
      0), and the row of every other (user, movie) pair is what it was. */
  lemma ApplyVoteRows(votes: seq<Vote>, u: UserId, m: MovieId, t: int, now: Timestamp, u': UserId, m': MovieId)
    ensures RowOf(ApplyVote(votes, u, m, t, now), u', m') ==
      if u' == u && m' == m then (if t == 0 then None else Some(Vote(u, m, t, now)))
      else RowOf(votes, u', m')
  {
    if t == 0 {
      DeleteRows(votes, u, m, u', m');
    } else if RowOf(votes, u, m).Some? {
      OverwriteRows(votes, u, m, t, now, u', m');
    } else {
      assert (votes + [Vote(u, m, t, now)])[..|votes|] == votes;
    }
  }

  lemma {:induction false} DeleteFrom(votes: seq<Vote>, u: UserId, m: MovieId)
    ensures forall x | x in Delete(votes, u, m) :: x in votes
  {
    if votes != [] {
      var init := votes[..|votes| - 1];
      DeleteFrom(init, u, m);
      assert forall x | x in init :: x in votes;
    }
  }

  lemma {:induction false} OverwriteFrom(votes: seq<Vote>, u: UserId, m: MovieId, t: int, now: Timestamp)
    ensures forall x | x in Overwrite(votes, u, m, t, now) :: x in votes || SameKey(x, u, m)
  {
    if votes != [] {
      var init := votes[..|votes| - 1];
      OverwriteFrom(init, u, m, t, now);
      assert forall x | x in init :: x in votes;
    }
  }

  /** A submission stores no row that is new except the caller's row for the movie. */
  lemma ApplyVoteFrom(votes: seq<Vote>, u: UserId, m: MovieId, t: int, now: Timestamp)
    ensures forall x | x in ApplyVote(votes, u, m, t, now) :: x in votes || SameKey(x, u, m)
  {
    if t == 0 {
      DeleteFrom(votes, u, m);
    } else if RowOf(votes, u, m).Some? {
      OverwriteFrom(votes, u, m, t, now);
    }
  }

  /** An upvote or downvote leaves exactly one row for (u, m). */
  lemma UpsertLeavesOneRow(votes: seq<Vote>, u: UserId, m: MovieId, t: int, now: Timestamp)
    requires UniqueVoteKeys(votes) && StoredVoteTypes(votes) && IsStoredVoteType(t)
    ensures RowCount(Upsert(votes, u, m, t, now), u, m) == 1
  {
    ApplyVoteKeepsInvariants(votes, u, m, t, now);
    ApplyVoteRows(votes, u, m, t, now, u, m);
    UniqueKeyCount(Upsert(votes, u, m, t, now), u, m);
  }

  /** Repeating a vote does not add a row: voting t twice is voting t once (with the
      later time). */
  lemma UpsertTwice(votes: seq<Vote>, u: UserId, m: MovieId, t: int, now1: Timestamp, now2: Timestamp)
    ensures Upsert(Upsert(votes, u, m, t, now1), u, m, t, now2) == Upsert(votes, u, m, t, now2)
  {
    var once := Upsert(votes, u, m, t, now1);
    OverwriteRows(votes, u, m, t, now1, u, m);
    if RowOf(votes, u, m).Some? {
      OverwriteTwice(votes, u, m, t, now1, now2);
    } else {
      var x := Vote(u, m, t, now1);
      assert (votes + [x])[..|votes|] == votes;
      OverwriteAbsent(votes, u, m, t, now2);
      assert Overwrite(votes + [x], u, m, t, now2) == Overwrite(votes, u, m, t, now2) + [Vote(u, m, t, now2)];
    }
  }

  lemma {:induction false} OverwriteTwice(votes: seq<Vote>, u: UserId, m: MovieId, t: int, now1: Timestamp, now2: Timestamp)
    ensures Overwrite(Overwrite(votes, u, m, t, now1), u, m, t, now2) == Overwrite(votes, u, m, t, now2)
  {
    if votes != [] {
      var init := votes[..|votes| - 1];
      var last := votes[|votes| - 1];
      OverwriteTwice(init, u, m, t, now1, now2);
      var o := Overwrite(init, u, m, t, now1);
      var x := if SameKey(last, u, m) then last.(voteType := t, createdAt := now1) else last;
      assert (o + [x])[..|o|] == o;
    }
  }

  /** Apart from the caller's row for the movie, the table is unchanged and in the same
      order. */
  lemma ApplyVoteKeepsOthers(votes: seq<Vote>, u: UserId, m: MovieId, t: int, now: Timestamp)
    ensures Delete(ApplyVote(votes, u, m, t, now), u, m) == Delete(votes, u, m)
  {
    if t == 0 {
      DeleteRows(votes, u, m, u, m);
      DeleteAbsent(Delete(votes, u, m), u, m);
    } else if RowOf(votes, u, m).Some? {
      OverwriteThenDelete(votes, u, m, t, now);
    } else {
      var x := Vote(u, m, t, now);
      assert (votes + [x])[..|votes|] == votes;
      assert Delete(votes + [x], u, m) == Delete(votes, u, m) + [];
    }
  }

  // ---- What a submission does to the stats ---------------------------------------

  /** The part of a sum that comes from the rows of (u, m). */
  function KeySum(votes: seq<Vote>, u: UserId, m: MovieId, w: Column): int
  {
    if votes == [] then 0
    else
      var last := votes[|votes| - 1];
      KeySum(votes[..|votes| - 1], u, m, w) + (if SameKey(last, u, m) then Weight(w, last.voteType) else 0)
  }

  /** A movie's sum is that of the table without the rows of (u, m), plus what those rows
      add when they are on that movie. */
  lemma {:induction false} DeleteSplit(votes: seq<Vote>, u: UserId, m: MovieId, m': MovieId, w: Column)
    ensures Sum(votes, m', w) == Sum(Delete(votes, u, m), m', w) + (if m' == m then KeySum(votes, u, m, w) else 0)
  {
    if votes != [] {
      var init := votes[..|votes| - 1];
      var last := votes[|votes| - 1];
      DeleteSplit(init, u, m, m', w);
      var d := Delete(init, u, m);
      if !SameKey(last, u, m) {
        assert (d + [last])[..|d|] == d;
      }
    }
  }

  lemma {:induction false} KeySumAbsent(votes: seq<Vote>, u: UserId, m: MovieId, w: Column)
    requires RowOf(votes, u, m).None?
    ensures KeySum(votes, u, m, w) == 0
  {
    if votes != [] {
      KeySumAbsent(votes[..|votes| - 1], u, m, w);
    }
  }

  /** Under the uniqueness constraint the rows of (u, m) add exactly the weight of the
      user's current vote (nothing when there is none). */
  lemma {:induction false} KeySumUnique(votes: seq<Vote>, u: UserId, m: MovieId, w: Column)
    requires UniqueVoteKeys(votes)
    ensures KeySum(votes, u, m, w) == if RowOf(votes, u, m).Some? then Weight(w, RowOf(votes, u, m).value.voteType) else 0
  {
    if votes != [] {
      var init := votes[..|votes| - 1];
      KeySumUnique(init, u, m, w);
      if SameKey(votes[|votes| - 1], u, m) {
        KeySumAbsent(init, u, m, w);
      }
    }
  }

  /** One of the three sums after a submission: the weight of the caller's previous vote
      on m stops counting and that of the applied one starts. */
  lemma ApplyVoteSum(votes: seq<Vote>, u: UserId, m: MovieId, t: int, now: Timestamp, m': MovieId, w: Column)
    requires UniqueVoteKeys(votes) && StoredVoteTypes(votes)
    requires t == 1 || t == -1 || t == 0
    ensures Sum(ApplyVote(votes, u, m, t, now), m', w) + (if m' == m then Weight(w, CurrentVote(votes, u, m)) else 0)
      == Sum(votes, m', w) + (if m' == m then Weight(w, t) else 0)
  {
    var after := ApplyVote(votes, u, m, t, now);
    DeleteSplit(votes, u, m, m', w);
    DeleteSplit(after, u, m, m', w);
    ApplyVoteKeepsOthers(votes, u, m, t, now);
    ApplyVoteKeepsInvariants(votes, u, m, t, now);
    ApplyVoteRows(votes, u, m, t, now, u, m);
    KeySumUnique(votes, u, m, w);
    KeySumUnique(after, u, m, w);
  }

  /** Two different users who had not voted on m each upvote it: its upvotes and its
      score go up by 2, its downvotes do not change. */
  lemma TwoUpvotes(votes: seq<Vote>, u1: UserId, u2: UserId, m: MovieId, now1: Timestamp, now2: Timestamp, c: Column)
    requires UniqueVoteKeys(votes) && StoredVoteTypes(votes)
    requires u1 != u2 && RowOf(votes, u1, m).None? && RowOf(votes, u2, m).None?
    ensures Sum(ApplyVote(ApplyVote(votes, u1, m, 1, now1), u2, m, 1, now2), m, c)
      == Sum(votes, m, c) + 2 * Weight(c, 1)
  {
    var mid := ApplyVote(votes, u1, m, 1, now1);
    ApplyVoteSum(votes, u1, m, 1, now1, m, c);
    ApplyVoteKeepsInvariants(votes, u1, m, 1, now1);
    ApplyVoteRows(votes, u1, m, 1, now1, u2, m);
    ApplyVoteSum(mid, u2, m, 1, now2, m, c);
  }

  // ---- The route -------------------------------------------------------------------

  datatype VoteReply = VoteReply(message: string, voteType: int, stats: Stats)

  /** The two validators of the route, in declaration order. */
  function VoteChecks(movieId: Option<int>, voteType: int): seq<Check>
  {
    [ Check(movieId.Some?, "Valid movie ID is required"),
      Check(voteType == 1 || voteType == -1 || voteType == 0,
            "Vote type must be 1 (upvote), -1 (downvote), or 0 (remove vote)") ]
  }

  /** The reply's message echoes whether the vote was removed. */
  function VoteMessage(t: int): (msg: string)
    ensures msg == "Vote removed" <==> t == 0
  {
    if t == 0 then "Vote removed" else "Vote recorded"
  }

  /** Where, if anywhere, the database raises an error during the vote transaction: at
      `BEGIN` or the movie check, or at the write, the stats query or `COMMIT`. Either
      one sends the handler to its `catch`, which rolls back. */
  datatype Fault = NoFault | AtCheck | AtWrite

  /** `POST /votes` for the authenticated `caller`. `movieId` is None when the body's
      movie_id is not an integer; `now` is the database's NOW(); `fault` says where the
      database raises an error, if it does. */
  method SubmitVote(db: Database, caller: Caller, movieId: Option<int>, voteType: int, now: Timestamp, fault: Fault)
    returns (r: Response<VoteReply>)
    requires db.Valid()
    modifies db
    ensures db.Valid()
    ensures db.users == old(db.users) && db.movies == old(db.movies) && db.comments == old(db.comments)
    ensures db.nextMovieId == old(db.nextMovieId) && db.nextCommentId == old(db.nextCommentId)
    ensures RejectInvalid<VoteReply>(VoteChecks(movieId, voteType)).Some? ==>
      r == RejectInvalid<VoteReply>(VoteChecks(movieId, voteType)).value && db.votes == old(db.votes)
    ensures RejectInvalid<VoteReply>(VoteChecks(movieId, voteType)).None? ==>
      var m := movieId.value;
      if fault == AtCheck then
        r == Err(500, Error("Failed to process vote")) && db.votes == old(db.votes)
      else if FindMovie(db.movies, m).None? then
        r == Err(404, Error("Movie not found")) && db.votes == old(db.votes)
      else if fault == AtWrite then
        r == Err(500, Error("Failed to process vote")) && db.votes == old(db.votes)
      else
        && db.votes == ApplyVote(old(db.votes), caller.id, m, voteType, now)
        && r == Ok(200, VoteReply(VoteMessage(voteType), voteType, StatsFor(db.votes, m)))
  {
    var invalid := RejectInvalid<VoteReply>(VoteChecks(movieId, voteType));
    if invalid.Some? {
      return invalid.value;
    }
    assert VoteChecks(movieId, voteType)[0].passed && VoteChecks(movieId, voteType)[1].passed;
    var m := movieId.value;
    // BEGIN: the transaction works on its own copy of the table.
    var tx := db.votes;
    if fault == AtCheck {
      // ROLLBACK
      return Err(500, Error("Failed to process vote"));
    }
    if FindMovie(db.movies, m).None? {
      // ROLLBACK
      return Err(404, Error("Movie not found"));
    }
    if voteType == 0 {
      tx := Delete(tx, caller.id, m);
    } else {
      tx := Upsert(tx, caller.id, m, voteType, now);
    }
    var stats := StatsFor(tx, m);
    if fault == AtWrite {
      // ROLLBACK: the working copy is dropped.
      return Err(500, Error("Failed to process vote"));
    }
    // COMMIT
    ApplyVoteKeepsInvariants(db.votes, caller.id, m, voteType, now);
    ApplyVoteFrom(db.votes, caller.id, m, voteType, now);
    db.votes := tx;
    r := Ok(200, VoteReply(VoteMessage(voteType), voteType, stats));
  }
}
