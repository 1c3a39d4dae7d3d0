/** The comment routes: `GET /comments/movie/:movieId` (a movie's comments, newest first,
    with their authors), `POST /comments`, `PUT /comments/:id` (author only) and
    `DELETE /comments/:id` (author or admin). */
module CommentRoutes {
  import opened Common
  import opened Store
  import opened Sorting
  import opened Ranking

  /** A comment as the routes return it: the row joined with its author's name and role. */
  datatype CommentView = CommentView(id: CommentId, body: string, createdAt: Timestamp, userId: UserId, userName: string, userRole: string)

  function View(c: Comment, author: User): CommentView
  {
    CommentView(c.id, c.body, c.createdAt, c.userId, author.name, author.role)
  }

  // ---- GET /comments/movie/:movieId -----------------------------------------------------

  /** `FROM comments c JOIN users u ON c.user_id = u.id WHERE c.movie_id = $1`, in table
      order: a comment whose author has no users row drops out of the inner join. */
  function MovieComments(users: map<UserId, User>, comments: seq<Comment>, m: MovieId): seq<CommentView>
  {
    if comments == [] then []
    else
      var last := comments[|comments| - 1];
      MovieComments(users, comments[..|comments| - 1], m)
        + (if last.movieId == m && last.userId in users then [View(last, users[last.userId])] else [])
  }

  /** The query returns the comments of that movie whose author exists, each once with its
      author's name and role, and nothing else. */
  lemma {:induction false} MovieCommentsMembers(users: map<UserId, User>, comments: seq<Comment>, m: MovieId)
    ensures forall c | c in comments && c.movieId == m && c.userId in users ::
      View(c, users[c.userId]) in MovieComments(users, comments, m)
    ensures forall v | v in MovieComments(users, comments, m) ::
      exists c | c in comments :: c.movieId == m && c.userId in users && v == View(c, users[c.userId])
  {
    if comments != [] {
      var init := comments[..|comments| - 1];
      MovieCommentsMembers(users, init, m);
      assert comments == init + [comments[|comments| - 1]];
    }
  }

  /** When every comment's author has a users row, the thread this route returns has as
      many entries as the movie has comment rows: as many as the listing's comment_count
      for that movie. */
  lemma {:induction false} ThreadLength(users: map<UserId, User>, comments: seq<Comment>, m: MovieId)
    requires forall c | c in comments :: c.userId in users
    ensures |MovieComments(users, comments, m)| == |CommentsOn(comments, m)|
  {
    if comments != [] {
      var init := comments[..|comments| - 1];
      assert forall c | c in init :: c in comments;
      ThreadLength(users, init, m);
    }
  }

  /** The comment_count a movie is listed with is the number of comments its thread
      shows, as long as every author has a users row. */
  lemma ListedCountIsThreadLength(t: Tables, mv: Movie)
    requires UniqueCommentIds(t.comments)
    requires forall c | c in t.comments :: c.userId in t.users
    ensures ListedRow(t, mv).commentCount == |MovieComments(t.users, t.comments, mv.id)|
  {
    ListedFigures(t, mv);
    ThreadLength(t.users, t.comments, mv.id);
  }

  /** `ORDER BY c.created_at DESC` */
  function NewestFirst(v: CommentView): Key { Key(v.createdAt, 0) }

  function CommentChecks(movieId: Option<int>): seq<Check>
  {
    [Check(movieId.Some?, "Valid movie ID is required")]
  }

  /** `GET /comments/movie/:movieId`: 400 for an id that is not an integer, otherwise the
      movie's comments, newest first (an unknown movie simply has none). */
  function ListComments(t: Tables, movieId: Option<int>): (r: Response<seq<CommentView>>)
    ensures movieId.None? <==> r == Err(400, Errors(["Valid movie ID is required"]))
    ensures movieId.Some? ==> r.Ok? && r.status == 200
    ensures movieId.Some? ==> forall i, j | 0 <= i < j < |r.body| :: r.body[i].createdAt >= r.body[j].createdAt
  {
    var invalid := RejectInvalid<seq<CommentView>>(CommentChecks(movieId));
    if invalid.Some? then
      assert FailedMessages(CommentChecks(movieId)) == ["Valid movie ID is required"];
      invalid.value
    else
      var rows := Sort(MovieComments(t.users, t.comments, movieId.value), NewestFirst);
      assert forall i, j | 0 <= i < j < |rows| :: NotBelow(NewestFirst(rows[i]), NewestFirst(rows[j]));
      Ok(200, rows)
  }

  /** The listing holds exactly the movie's comments that have an author. */
  lemma ListCommentsEntries(t: Tables, m: MovieId)
    ensures forall c | c in t.comments && c.movieId == m && c.userId in t.users ::
      View(c, t.users[c.userId]) in ListComments(t, Some(m)).body
    ensures forall v | v in ListComments(t, Some(m)).body ::
      exists c | c in t.comments :: c.movieId == m && c.userId in t.users && v == View(c, t.users[c.userId])
  {
    MovieCommentsMembers(t.users, t.comments, m);
    SortMembers(MovieComments(t.users, t.comments, m), NewestFirst);
  }

  // ---- Permissions --------------------------------------------------------------------

  /** Only the author may edit a comment; an admin may not edit another's. */
  predicate MayEdit(caller: Caller, c: Comment)
  {
    c.userId == caller.id
  }

  /** The author or an admin may delete a comment. */
  predicate MayDelete(caller: Caller, c: Comment)
  {
    c.userId == caller.id || caller.role == "admin"
  }

  /** Whoever may edit may delete; an admin who is not the author may delete but not edit. */
  lemma EditImpliesDelete(caller: Caller, c: Comment)
    ensures MayEdit(caller, c) ==> MayDelete(caller, c)
    ensures caller.role == "admin" && c.userId != caller.id ==> MayDelete(caller, c) && !MayEdit(caller, c)
  {
  }

  // ---- POST /comments -----------------------------------------------------------------

  datatype Saved = Saved(message: string, comment: CommentView)

  function AddChecks(movieId: Option<int>, body: string): seq<Check>
  {
    [ Check(movieId.Some?, "Valid movie ID is required"),
      Check(Trim(body) != [], "Comment body is required") ]
  }

  /** A row with a fresh id keeps the ids unique. */
  lemma AppendNewComment(comments: seq<Comment>, c: Comment)
    requires UniqueCommentIds(comments) && forall x | x in comments :: x.id < c.id
    ensures UniqueCommentIds(comments + [c])
    ensures forall x | x in comments + [c] :: x.id < c.id + 1
  {
  }

  /** `POST /comments` for the authenticated `caller`; `now` is the database's NOW(). The
      movie must exist; the row is inserted before the author is read, so a caller
      without a users row gets 500 with the comment already stored. */
  method AddComment(db: Database, caller: Caller, movieId: Option<int>, body: string, now: Timestamp)
    returns (r: Response<Saved>)
    requires db.Valid()
    modifies db
    ensures db.Valid()
    ensures db.users == old(db.users) && db.movies == old(db.movies) && db.votes == old(db.votes)
    ensures db.nextMovieId == old(db.nextMovieId)
    ensures RejectInvalid<Saved>(AddChecks(movieId, body)).Some? ==>
      r == RejectInvalid<Saved>(AddChecks(movieId, body)).value && db.comments == old(db.comments)
    ensures RejectInvalid<Saved>(AddChecks(movieId, body)).None? && FindMovie(db.movies, movieId.value).None? ==>
      r == Err(404, Error("Movie not found")) && db.comments == old(db.comments) &&
      db.nextCommentId == old(db.nextCommentId)
    ensures RejectInvalid<Saved>(AddChecks(movieId, body)).None? && FindMovie(db.movies, movieId.value).Some? ==>
      var c := Comment(old(db.nextCommentId), caller.id, movieId.value, Trim(body), now);
      && db.comments == old(db.comments) + [c]
      && db.nextCommentId == old(db.nextCommentId) + 1
      && r == if caller.id in db.users
              then Ok(201, Saved("Comment added successfully", View(c, db.users[caller.id])))
              else Err(500, Error("Failed to add comment"))
  {
    var invalid := RejectInvalid<Saved>(AddChecks(movieId, body));
    if invalid.Some? {
      return invalid.value;
    }
    assert AddChecks(movieId, body)[0].passed;
    var found := FindMovie(db.movies, movieId.value);
    if found.None? {
      return Err(404, Error("Movie not found"));
    }
    var c := Comment(db.nextCommentId, caller.id, movieId.value, Trim(body), now);
    AppendNewComment(db.comments, c);
    db.comments := db.comments + [c];
    db.nextCommentId := db.nextCommentId + 1;
    if caller.id !in db.users {
      return Err(500, Error("Failed to add comment"));
    }
    r := Ok(201, Saved("Comment added successfully", View(c, db.users[caller.id])));
  }

  // ---- PUT /comments/:id --------------------------------------------------------------

  /** `UPDATE comments SET body = b, created_at = NOW() WHERE id = $2` */
  function Rewrite(comments: seq<Comment>, id: CommentId, b: string, now: Timestamp): (r: seq<Comment>)
    ensures |r| == |comments|
  {
    if comments == [] then []
    else
      var last := comments[|comments| - 1];
      Rewrite(comments[..|comments| - 1], id, b, now)
        + [if last.id == id then last.(body := b, createdAt := now) else last]
  }

  /** An edit changes only the body and the time of the rows of that id: every row keeps
      its id, author and movie, and the other rows are untouched. */
  lemma {:induction false} RewriteRows(comments: seq<Comment>, id: CommentId, b: string, now: Timestamp)
    ensures forall i | 0 <= i < |comments| ::
      Rewrite(comments, id, b, now)[i] ==
        if comments[i].id == id then comments[i].(body := b, createdAt := now) else comments[i]
  {
    if comments != [] {
      var init := comments[..|comments| - 1];
      RewriteRows(init, id, b, now);
      var r0 := Rewrite(init, id, b, now);
      var last := comments[|comments| - 1];
      var x := if last.id == id then last.(body := b, createdAt := now) else last;
      forall i | 0 <= i < |comments|
        ensures Rewrite(comments, id, b, now)[i] == if comments[i].id == id then comments[i].(body := b, createdAt := now) else comments[i]
      {
        if i < |init| {
          assert (r0 + [x])[i] == r0[i] && comments[i] == init[i];
        }
      }
    }
  }

  /** An edit keeps every row's id, and so the ids' uniqueness, and every row's movie. */
  lemma RewriteKeepsKeys(comments: seq<Comment>, id: CommentId, b: string, now: Timestamp, nextId: CommentId, nextMovie: MovieId)
    requires UniqueCommentIds(comments)
    requires forall c | c in comments :: c.id < nextId && c.movieId < nextMovie
    ensures UniqueCommentIds(Rewrite(comments, id, b, now))
    ensures forall c | c in Rewrite(comments, id, b, now) :: c.id < nextId && c.movieId < nextMovie
  {
    var r := Rewrite(comments, id, b, now);
    RewriteRows(comments, id, b, now);
    assert forall i | 0 <= i < |r| :: r[i].id == comments[i].id && r[i].movieId == comments[i].movieId;
    forall c | c in r ensures c.id < nextId && c.movieId < nextMovie {
      var i :| 0 <= i < |r| && r[i] == c;
      assert comments[i] in comments;
    }
  }

  /** After the edit the lookup finds the comment with the new text and time. */
  lemma {:induction false} RewriteFind(comments: seq<Comment>, id: CommentId, b: string, now: Timestamp)
    requires FindComment(comments, id).Some?
    ensures FindComment(Rewrite(comments, id, b, now), id) == Some(FindComment(comments, id).value.(body := b, createdAt := now))
  {
    FindFirst(comments, CommentKey, id);
    var k :| 0 <= k < |comments| && comments[k] == FindComment(comments, id).value &&
      forall i | 0 <= i < k :: comments[i].id != id;
    RewriteRows(comments, id, b, now);
    FirstFound(Rewrite(comments, id, b, now), CommentKey, id, k);
  }

  function EditChecks(id: Option<int>, body: string): seq<Check>
  {
    [ Check(id.Some?, "Valid comment ID is required"),
      Check(Trim(body) != [], "Comment body is required") ]
  }

  /** `PUT /comments/:id` for the authenticated `caller`: 404 before 403, and only the
      author passes. */
  method EditComment(db: Database, caller: Caller, id: Option<int>, body: string, now: Timestamp)
    returns (r: Response<Saved>)
    requires db.Valid()
    modifies db
    ensures db.Valid()
    ensures db.users == old(db.users) && db.movies == old(db.movies) && db.votes == old(db.votes)
    ensures db.nextMovieId == old(db.nextMovieId) && db.nextCommentId == old(db.nextCommentId)
    ensures RejectInvalid<Saved>(EditChecks(id, body)).Some? ==>
      r == RejectInvalid<Saved>(EditChecks(id, body)).value && db.comments == old(db.comments)
    ensures RejectInvalid<Saved>(EditChecks(id, body)).None? ==>
      var found := FindComment(old(db.comments), id.value);
      if found.None? then
        r == Err(404, Error("Comment not found")) && db.comments == old(db.comments)
      else if !MayEdit(caller, found.value) then
        r == Err(403, Error("You can only edit your own comments")) && db.comments == old(db.comments)
      else
        && db.comments == Rewrite(old(db.comments), id.value, Trim(body), now)
        && r == if caller.id in db.users
                then Ok(200, Saved("Comment updated successfully",
                                   View(found.value.(body := Trim(body), createdAt := now), db.users[caller.id])))
                else Err(500, Error("Failed to edit comment"))
  {
    var invalid := RejectInvalid<Saved>(EditChecks(id, body));
    if invalid.Some? {
      return invalid.value;
    }
    assert EditChecks(id, body)[0].passed;
    var found := FindComment(db.comments, id.value);
    if found.None? {
      return Err(404, Error("Comment not found"));
    }
    if found.value.userId != caller.id {
      return Err(403, Error("You can only edit your own comments"));
    }
    var b := Trim(body);
    RewriteKeepsKeys(db.comments, id.value, b, now, db.nextCommentId, db.nextMovieId);
    db.comments := Rewrite(db.comments, id.value, b, now);
    var updated := found.value.(body := b, createdAt := now);
    if caller.id !in db.users {
      return Err(500, Error("Failed to edit comment"));
    }
    r := Ok(200, Saved("Comment updated successfully", View(updated, db.users[caller.id])));
  }

  // ---- DELETE /comments/:id -------------------------------------------------------------

  /** `DELETE FROM comments WHERE id = $1`: the table without the rows of that id, in
      order. */
  function WithoutComment(comments: seq<Comment>, id: CommentId): seq<Comment>
  {
    if comments == [] then []
    else
      var last := comments[|comments| - 1];
      WithoutComment(comments[..|comments| - 1], id) + (if last.id == id then [] else [last])
  }

  /** Exactly the rows of that id are removed. */
  lemma {:induction false} WithoutCommentMembers(comments: seq<Comment>, id: CommentId)
    ensures forall c :: c in WithoutComment(comments, id) <==> c in comments && c.id != id
  {
    if comments != [] {
      var init := comments[..|comments| - 1];
      WithoutCommentMembers(init, id);
      assert comments == init + [comments[|comments| - 1]];
    }
  }

  /** With unique ids the deletion keeps them unique, and removes one row when the id is
      present. */
  lemma {:induction false} WithoutCommentUnique(comments: seq<Comment>, id: CommentId)
    requires UniqueCommentIds(comments)
    ensures UniqueCommentIds(WithoutComment(comments, id))
    ensures |WithoutComment(comments, id)| == |comments| - (if FindComment(comments, id).Some? then 1 else 0)
  {
    if comments != [] {
      var init := comments[..|comments| - 1];
      var last := comments[|comments| - 1];
      assert UniqueCommentIds(init);
      WithoutCommentUnique(init, id);
      WithoutCommentMembers(init, id);
      var r0 := WithoutComment(init, id);
      if last.id != id {
        forall i, j | 0 <= i < j < |r0| + 1 ensures (r0 + [last])[i].id != (r0 + [last])[j].id {
          if j == |r0| {
            assert (r0 + [last])[i] == r0[i];
            assert r0[i] in init;
            var k :| 0 <= k < |init| && init[k] == r0[i];
            assert comments[k] == init[k];
          } else {
            assert (r0 + [last])[i] == r0[i] && (r0 + [last])[j] == r0[j];
          }
        }
      } else {
        assert r0 + [] == r0;
      }
      assert forall i | 0 <= i < |init| :: init[i] == comments[i];
    }
  }

  function DeleteChecks(id: Option<int>): seq<Check>
  {
    [Check(id.Some?, "Valid comment ID is required")]
  }

  /** `DELETE /comments/:id` for the authenticated `caller`: 404 before 403, and the author
      or an admin passes. */
  method DeleteComment(db: Database, caller: Caller, id: Option<int>) returns (r: Response<string>)
    requires db.Valid()
    modifies db
    ensures db.Valid()
    ensures db.users == old(db.users) && db.movies == old(db.movies) && db.votes == old(db.votes)
    ensures db.nextMovieId == old(db.nextMovieId) && db.nextCommentId == old(db.nextCommentId)
    ensures id.None? ==> r == Err(400, Errors(["Valid comment ID is required"])) && db.comments == old(db.comments)
    ensures id.Some? ==>
      var found := FindComment(old(db.comments), id.value);
      if found.None? then
        r == Err(404, Error("Comment not found")) && db.comments == old(db.comments)
      else if !MayDelete(caller, found.value) then
        r == Err(403, Error("You can only delete your own comments")) && db.comments == old(db.comments)
      else
        r == Ok(200, "Comment deleted successfully") && db.comments == WithoutComment(old(db.comments), id.value)
  {
    var invalid := RejectInvalid<string>(DeleteChecks(id));
    if invalid.Some? {
      assert FailedMessages(DeleteChecks(id)) == ["Valid comment ID is required"];
      return invalid.value;
    }
    assert DeleteChecks(id)[0].passed;
    var found := FindComment(db.comments, id.value);
    if found.None? {
      return Err(404, Error("Comment not found"));
    }
    if found.value.userId != caller.id && caller.role != "admin" {
      return Err(403, Error("You can only delete your own comments"));
    }
    WithoutCommentMembers(db.comments, id.value);
    WithoutCommentUnique(db.comments, id.value);
    db.comments := WithoutComment(db.comments, id.value);
    r := Ok(200, "Comment deleted successfully");
  }
}
