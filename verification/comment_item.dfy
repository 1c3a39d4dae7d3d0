/** One comment's controls: who sees the edit and delete buttons, and when the thread is
    told that the comment is gone. */
module CommentItemComponent {
  import opened Common
  import opened Store
  import opened ClientData
  import opened CommentRoutes

  /** `canEdit`: a signed-in user who wrote the comment. */
  predicate CanEdit(user: Option<SessionUser>, c: ClientComment)
  {
    user.Some? && user.value.id == c.userId
  }

  /** `canDelete`: a signed-in user who wrote the comment or is an admin. */
  predicate CanDelete(user: Option<SessionUser>, c: ClientComment)
  {
    user.Some? && (user.value.id == c.userId || IsAdminUser(user))
  }

  /** Whoever may edit may delete; an admin who is not the author may delete but not
      edit; nobody signed out may do either. */
  lemma Permissions(user: Option<SessionUser>, c: ClientComment)
    ensures CanEdit(user, c) ==> CanDelete(user, c)
    ensures IsAdminUser(user) && user.value.id != c.userId ==> CanDelete(user, c) && !CanEdit(user, c)
    ensures user.None? ==> !CanEdit(user, c) && !CanDelete(user, c)
  {
  }

  /** The buttons match the server's rules: for the comment a row of the server's table
      becomes, the client offers edit and delete exactly when the server allows them. */
  lemma MatchesServer(u: SessionUser, row: Comment, author: User)
    ensures var c := ClientComment(row.id, row.body, row.createdAt, row.userId, author.name, author.role);
      && (CanEdit(Some(u), c) <==> MayEdit(Caller(u.id, u.role), row))
      && (CanDelete(Some(u), c) <==> MayDelete(Caller(u.id, u.role), row))
  {
  }

  /** `handleDelete`: after the confirmation and a successful delete request the thread is
      told the comment's id; a declined confirmation sends no request. Returns whether a
      request is made and the id handed to the thread. */
  function DeleteOutcome(c: ClientComment, confirmed: bool, deleted: bool): (r: (bool, Option<int>))
    ensures r.0 <==> confirmed
    ensures r.1.Some? <==> confirmed && deleted
    ensures r.1.Some? ==> r.1.value == c.id
  {
    if !confirmed then (false, None)
    else if deleted then (true, Some(c.id))
    else (true, None)
  }
}
