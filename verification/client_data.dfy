/** The browser's copies of server data: movie and comment entries as the JSON replies
    deliver them, the signed-in user, and the list operations several components share. */
module ClientData {
  import opened Common
  import opened Store
  import opened Ranking

  /** A movie entry as the client holds it. Replies differ in the fields they carry (the
      listing has no upvotes or downvotes, the leaderboard no user_vote), so every figure
      is optional; a field the reply lacks is None. */
  datatype ClientMovie = ClientMovie(
    id: int, title: string, createdAt: Timestamp, score: Option<int>, upvotes: Option<int>,
    downvotes: Option<int>, commentCount: Option<int>, userVote: Option<int>)

  /** A comment entry: the row of the comment listing, or the comment of a POST/PUT reply. */
  datatype ClientComment = ClientComment(id: int, body: string, createdAt: Timestamp, userId: int, userName: string, userRole: string)

  /** The `user` object of the auth replies, kept in the context and in storage. */
  datatype SessionUser = SessionUser(id: int, name: string, role: string)

  function MovieIdOf(m: ClientMovie): int { m.id }

  function CommentIdOf(c: ClientComment): int { c.id }

  /** A row of `GET /api/movies` as the client receives it. */
  function FromListed(r: ListedMovie): ClientMovie
  {
    ClientMovie(r.id, r.title, r.createdAt, Some(r.score), None, None, Some(r.commentCount), r.userVote)
  }

  /** A row of `GET /api/movies/top` as the client receives it. */
  function FromTop(r: TopMovie): ClientMovie
  {
    ClientMovie(r.id, r.title, r.createdAt, Some(r.score), Some(r.upvotes), Some(r.downvotes), Some(r.commentCount), None)
  }

  /** `user?.role === 'admin'`. */
  predicate IsAdminUser(user: Option<SessionUser>)
  {
    user.Some? && user.value.role == "admin"
  }

  /** `s || fallback` on an optional string: an absent or empty text gives the fallback. */
  function OrDefault(s: Option<string>, fallback: string): string
  {
    if s.Some? && s.value != [] then s.value else fallback
  }

  /** `list.filter(x => x.id !== id)`. */
  function Without<T>(s: seq<T>, id: int, idOf: T -> int): (r: seq<T>)
    ensures |r| <= |s|
  {
    if s == [] then []
    else
      var kept := Without(s[..|s| - 1], id, idOf);
      var last := s[|s| - 1];
      if idOf(last) == id then kept else kept + [last]
  }

  /** The filter keeps exactly the entries with another id. */
  lemma {:induction false} WithoutMembers<T>(s: seq<T>, id: int, idOf: T -> int)
    ensures forall x :: x in Without(s, id, idOf) <==> x in s && idOf(x) != id
  {
    if s != [] {
      var init := s[..|s| - 1];
      WithoutMembers(init, id, idOf);
      assert s == init + [s[|s| - 1]];
    }
  }

  /** Filtering distributes over concatenation: the entries kept stay in their order. */
  lemma {:induction false} WithoutAppend<T>(a: seq<T>, b: seq<T>, id: int, idOf: T -> int)
    ensures Without(a + b, id, idOf) == Without(a, id, idOf) + Without(b, id, idOf)
  {
    if b == [] {
      assert a + b == a;
    } else {
      var init := b[..|b| - 1];
      assert (a + b)[..|a + b| - 1] == a + init;
      WithoutAppend(a, init, id, idOf);
    }
  }

  /** An id that is not in the list leaves it as it is. */
  lemma {:induction false} WithoutAbsent<T>(s: seq<T>, id: int, idOf: T -> int)
    requires forall x | x in s :: idOf(x) != id
    ensures Without(s, id, idOf) == s
  {
    if s != [] {
      var init := s[..|s| - 1];
      assert forall x | x in init :: x in s;
      WithoutAbsent(init, id, idOf);
    }
  }
}
