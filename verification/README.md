# MovieHub in Dafny

MovieHub is a movie-voting web application with two parts:

- An Express API over PostgreSQL. Users add movies, vote them up or down and comment on them. Admins delete movies and see a top-10 leaderboard.
- A React client that holds copies of that data and updates them as replies come back.

This project models the logic of both parts:

- **Vote writer** (`VoteWriter`). `POST /api/votes` runs one transaction:
  - validate the request;
  - check that the movie exists;
  - delete the caller's row for vote type 0, or upsert it for +1/-1;
  - read the movie's fresh `{upvotes, downvotes, score}`.
- **Aggregates** (`Aggregates`). These are the `COALESCE(SUM(CASE ...), 0)` sums over the votes table.
- **Movie routes** (`MovieRoutes`, `Ranking`).
  - The listing joins each movie with its votes and comments and groups the result. It is ordered by score, then by creation time, and gains the caller's own vote when the Authorization header verifies.
  - Adding and deleting movies, the leaderboard, and the per-movie vote stats.
- **Comment routes** (`CommentRoutes`).
  - The newest-first listing of a movie's comments.
  - Adding, editing and deleting comments, with their validation, existence and ownership checks in the source's order.
- **Error handler** (`ErrorHandler`). The Express error middleware maps error names and PostgreSQL codes to replies.
- **Client state**:
  - the movie list (`MovieListComponent`);
  - the vote buttons of a movie card (`MovieCardComponent`);
  - the comment thread (`CommentSectionComponent`) and the controls of one comment (`CommentItemComponent`);
  - the admin dashboard (`AdminDashboardPage`);
  - the auth context over `localStorage` (`AuthContextProvider`, `BrowserStorage`);
  - the route guard (`ProtectedRouteGuard`);
  - the axios interceptors (`ApiClient`).

## How the model is built

- **Tables.** The database is a `Database` class. Its fields are:
  - the users table, as a map;
  - the movies, votes and comments tables, as sequences of rows in table order;
  - the next serial ids.

  `Valid()` states the database's invariants:
  - movie ids and comment ids are unique;
  - there is one vote row per (user, movie), which is the `ON CONFLICT (user_id, movie_id)` target;
  - a stored vote is +1 or -1;
  - every id is below the next serial value.
- **Routes that write.** Each is a method on the database. It returns the HTTP reply as a `Response` value, and its `ensures` gives the whole new state for every branch. Routes that only read are functions of a `Tables` snapshot.
- **Aggregates.** Each is a function of the votes table. Nothing is stored.
- **The listing's join.** The listing and the leaderboard join votes AND comments before grouping, and the model spells this out (`Ranking.JoinedRows`). Each vote row is repeated once per comment. So:
  - `SUM(v.vote_type)` comes out as the plain sum times `max(1, number of comments)`;
  - `COUNT(DISTINCT c.id)` is the number of comments.

  The model keeps this behaviour of the code. So the listing's score (`moviehub-backend/routes/movies.js:29-35`) differs from the plain score that the vote route reports (`moviehub-backend/routes/votes.js:61-69`) for any movie with two or more comments. `Ranking.JoinScaling` states the factor.
- **Sorting.** `ORDER BY ... DESC` and the client's comparator sort are one stable insertion sort on a two-level key (`Sorting.Sort`). Rows with equal keys have no order in SQL; the stable order is one admissible choice.
- **Client state.**
  - Stateful components are classes whose fields are the component's state. Each handler is a method that replaces that state.
  - The list updates are functions that the methods and the lemmas share.
  - A request's outcome, the answer to a confirmation dialog, `NOW()`, JWT verification and `JSON.parse`/`JSON.stringify` are all parameters.

## Model

| member | source | states |
|---|---|---|
| Common.TrimFacts | moviehub-backend/routes/movies.js:77-78 | `trim()` yields the empty string exactly when the input is all whitespace, which is when `notEmpty()` rejects it; otherwise the result starts and ends with a non-space |
| Common.TrimIsSlice | moviehub-backend/routes/comments.js:52 | the trimmed text is the slice of the input between its leading and trailing whitespace |
| Common.TrimIdempotent | moviehub-backend/routes/comments.js:102 | trimming an already trimmed value changes nothing |
| Common.FailedMessages | moviehub-backend/routes/movies.js:10-16 | the error list is empty exactly when every validator passed, and has at most one message per validator |
| Common.RejectInvalid | moviehub-backend/routes/votes.js:9-15 | a request stops with 400 and the failed messages exactly when some validator failed; otherwise the handler runs |
| Store.RowOfFinds | moviehub-backend/routes/votes.js:46 | the lookup of a (user, movie) row finds a row of the table, and finds nothing exactly when no row has that key |
| Store.UniqueVoteKeysPairwise | moviehub-backend/routes/votes.js:54 | one row per (user, movie): no two rows share a key |
| Store.Find | moviehub-backend/routes/votes.js:33-38 | the `WHERE id = $1` lookup (of a movie here, of a comment in the comment routes) finds a row with the id, or none exactly when no row has it |
| Store.FindFirst | moviehub-backend/routes/comments.js:111-114 | the row found is the first row with the id |
| Store.FirstFound | moviehub-backend/routes/comments.js:166-169 | the first row with the id is the one the lookup finds |
| Aggregates.ScoreIsUpMinusDown | moviehub-backend/routes/votes.js:61-69 | with stored votes of +1/-1, score = upvotes - downvotes and both counts are non-negative |
| Aggregates.NoRowsNoStats | moviehub-backend/routes/movies.js:171-178 | a movie id without vote rows has stats {0, 0, 0} |
| Aggregates.StatsAppend | moviehub-backend/routes/votes.js:61-69 | the three sums are additive over a split of the table |
| Aggregates.UniqueKeyCount | moviehub-backend/routes/votes.js:54 | under the uniqueness constraint a key has one row when the lookup finds one and none otherwise |
| VoteWriter.Overwrite | moviehub-backend/routes/votes.js:55 | the `DO UPDATE` keeps the number of rows |
| VoteWriter.UniqueSnoc | moviehub-backend/routes/votes.js:52-54 | appending a row keeps keys unique exactly when its key is new |
| VoteWriter.DeleteRows | moviehub-backend/routes/votes.js:45-48 | the delete leaves no row for (user, movie) and every other key's row as it was |
| VoteWriter.DeleteAbsent | moviehub-backend/routes/votes.js:44-48 | removing a vote that does not exist changes nothing |
| VoteWriter.DeleteKeepsInvariants | moviehub-backend/routes/votes.js:45-48 | the delete keeps keys unique and stored votes +1/-1 |
| VoteWriter.OverwriteRows | moviehub-backend/routes/votes.js:54-55 | the update sets the existing row of the key to the new type and time and leaves other keys' rows alone |
| VoteWriter.OverwriteKeepsInvariants | moviehub-backend/routes/votes.js:54-55 | the update keeps keys unique and stored votes +1/-1 |
| VoteWriter.OverwriteAbsent | moviehub-backend/routes/votes.js:54-55 | the update branch touches nothing when the key has no row |
| VoteWriter.OverwriteThenDelete | moviehub-backend/routes/votes.js:44-57 | voting and then removing the vote leaves the table as removing alone would |
| VoteWriter.ApplyVoteKeepsInvariants | moviehub-backend/routes/votes.js:43-58 | every validated write keeps one row per key and stored votes +1/-1 |
| VoteWriter.ApplyVoteRows | moviehub-backend/routes/votes.js:43-58 | after a write the caller's row for the movie holds the vote (none for 0), and every other (user, movie) row is unchanged |
| VoteWriter.DeleteFrom | moviehub-backend/routes/votes.js:45-48 | the delete adds no row |
| VoteWriter.OverwriteFrom | moviehub-backend/routes/votes.js:54-55 | the update changes only rows of the voted key |
| VoteWriter.ApplyVoteFrom | moviehub-backend/routes/votes.js:43-58 | every row after a write was there before or has the voted key |
| VoteWriter.UpsertLeavesOneRow | moviehub-backend/routes/votes.js:51-57 | a +1/-1 vote leaves exactly one row for (user, movie) |
| VoteWriter.UpsertTwice | moviehub-backend/routes/votes.js:51-57 | repeating the same vote adds no row: two upserts equal the later one |
| VoteWriter.OverwriteTwice | moviehub-backend/routes/votes.js:54-55 | two updates of the same key equal the later one |
| VoteWriter.ApplyVoteKeepsOthers | moviehub-backend/routes/votes.js:46 | the rows of all other keys are the same before and after a write |
| VoteWriter.DeleteSplit | moviehub-backend/routes/votes.js:61-69 | a movie's sums before a delete are the sums after it plus the deleted key's share |
| VoteWriter.KeySumAbsent | moviehub-backend/routes/votes.js:61-69 | a key without a row adds nothing to the sums |
| VoteWriter.KeySumUnique | moviehub-backend/routes/votes.js:54 | under uniqueness a key adds exactly its one row's weight |
| VoteWriter.ApplyVoteSum | moviehub-backend/routes/votes.js:43-69 | a write moves each of the movie's sums by the new vote's weight minus the old vote's, and leaves other movies' sums alone |
| VoteWriter.TwoUpvotes | moviehub-backend/routes/votes.js:51-69 | two different users upvoting a movie once each add 2 to its upvotes and its score and nothing to its downvotes |
| VoteWriter.VoteMessage | moviehub-backend/routes/votes.js:74 | the message is 'Vote removed' exactly when the vote type is 0 |
| VoteWriter.SubmitVote | moviehub-backend/routes/votes.js:18-85 | 400 before the table is read; 500 for a failure at BEGIN or the movie check, whether or not the movie exists; then 404 for an absent movie; then 500 and rollback for a failure at the write, the stats query or COMMIT (votes unchanged in each of these); otherwise the write is applied, and the reply echoes the type and gives the stats of the table after the write; other tables never change and the invariants hold |
| Sorting.Sort | moviehub-backend/routes/movies.js:36 | the result is ordered descending by the key and is a permutation of the input |
| Sorting.SortSorted | moviehub-backend/routes/comments.js:36 | rows already in order are left in place |
| Sorting.SortMembers | moviehub-backend/routes/movies.js:36 | sorting keeps exactly the rows it is given |
| Sorting.MapSeq | moviehub-frontend/src/components/Movies/MovieList.jsx:37-40 | `map` keeps the length and applies the callback at every position |
| Sorting.MapMembers | moviehub-backend/routes/movies.js:58-61 | a mapped list holds the image of every element and nothing else |
| Sorting.SortAligned | moviehub-backend/routes/movies.js:144-154 | two lists that agree on key and id at every position still agree after sorting |
| Sorting.SortBag | moviehub-frontend/src/components/Movies/MovieList.jsx:41 | sorting keeps the multiset of ids |
| Ranking.VotesOn | moviehub-backend/routes/movies.js:33 | the join brings in only the movie's own vote rows |
| Ranking.CommentsOn | moviehub-backend/routes/movies.js:34 | the LEFT JOIN brings in every comment row of the movie and no other |
| Ranking.CommentSide | moviehub-backend/routes/movies.js:34 | a LEFT JOIN contributes max(1, comments) rows per vote row |
| Ranking.Product | moviehub-backend/routes/movies.js:33-34 | the joined group has (vote side) x (comment side) rows |
| Ranking.JoinScaling | moviehub-backend/routes/movies.js:29-35 | every SUM over the joined group equals the plain sum times max(1, comment count) |
| Ranking.CommentCount | moviehub-backend/routes/movies.js:30 | `COUNT(DISTINCT c.id)` over the joined group is the number of the movie's comments |
| Ranking.CommentsOnDistinct | moviehub-backend/routes/movies.js:30 | with unique comment ids the movie's comments have as many distinct ids as rows |
| Ranking.ListingEntries | moviehub-backend/routes/movies.js:29-35 | the listing holds one row for every movie, including those without votes or comments, and nothing else |
| Ranking.ListingOrdered | moviehub-backend/routes/movies.js:36 | the listing has as many rows as movies, ordered by score descending and then created_at descending |
| Ranking.ListedFigures | moviehub-backend/routes/movies.js:29-30 | a listed comment_count is the movie's number of comments, and its score is the sum of its votes times max(1, comment count) |
| Ranking.QuietMovie | moviehub-backend/routes/movies.js:29-30 | a movie without votes or comments is listed with score 0 and comment_count 0 |
| Ranking.TopIsListingPrefix | moviehub-backend/routes/movies.js:144-154 | the leaderboard is the first min(10, n) rows of the listing order: same ids, scores and creation times in the same places |
| Ranking.TopRowBalance | moviehub-backend/routes/movies.js:144-146 | a leaderboard row's upvotes - downvotes equals its score, both counts non-negative |
| Ranking.TopBalanced | moviehub-backend/routes/movies.js:144-154 | every leaderboard row balances |
| MovieRoutes.Substring7 | moviehub-backend/routes/movies.js:44 | `substring(7)` drops the first seven characters, or gives the empty string for a shorter header |
| MovieRoutes.CallerVotes | moviehub-backend/routes/movies.js:48-56 | the `userVotes` loop maps exactly the movies the caller has a row for to the stored vote type |
| MovieRoutes.WithUserVotes | moviehub-backend/routes/movies.js:58-61 | each row gains `user_vote` from the map, 0 when absent, and nothing else changes |
| MovieRoutes.ListMovies | moviehub-backend/routes/movies.js:19-72 | 200 with the listing; when the header verifies and the caller's-votes query succeeds, every row carries the caller's stored vote or 0; a missing or failing token, or a failing caller's-votes query (swallowed by the inner `catch`), gives the listing without user_vote |
| MovieRoutes.AddMovie | moviehub-backend/routes/movies.js:75-111 | 400 stores nothing; otherwise the trimmed title and description are stored with added_by = caller and a fresh id, and the reply is 201 with score 0 and comment_count 0 (500 when the caller has no users row); other tables unchanged |
| MovieRoutes.AppendNewMovie | moviehub-backend/routes/movies.js:84-89 | a movie with a fresh serial id keeps movie ids unique |
| MovieRoutes.AddedMovieListed | moviehub-backend/routes/movies.js:99-101 | the new movie appears in the listing with score 0, comment_count 0 and its adder's name, as the add reply says |
| MovieRoutes.WithoutMovieMembers | moviehub-backend/routes/movies.js:118-121 | the delete removes exactly the movie with the id |
| MovieRoutes.WithoutMovieUnique | moviehub-backend/routes/movies.js:118-121 | the delete removes one row when the id exists and none otherwise, and keeps ids unique |
| MovieRoutes.WithoutMovieAbsent | moviehub-backend/routes/movies.js:123-125 | deleting an absent id changes nothing |
| MovieRoutes.DeleteMovie | moviehub-backend/routes/movies.js:114-132 | 404 for an absent id and 500 for a non-integer one, both with no change; otherwise 200 and only that movie row removed; votes and comments untouched |
| MovieRoutes.TopMovies | moviehub-backend/routes/movies.js:135-164 | the leaderboard reply is 200 with at most 10 rows |
| MovieRoutes.MovieVotes | moviehub-backend/routes/movies.js:167-187 | 500 exactly for a non-integer id; otherwise 200 with the movie's stats, with no existence check |
| MovieRoutes.MovieVotesReport | moviehub-backend/routes/movies.js:171-182 | the reported score is upvotes - downvotes; an id without votes, existing or not, reports {0, 0, 0} |
| CommentRoutes.MovieCommentsMembers | moviehub-backend/routes/comments.js:25-35 | the inner join yields exactly the movie's comments whose author has a users row, with author name and role |
| CommentRoutes.ThreadLength | moviehub-backend/routes/comments.js:25-35 | when every author has a users row, the thread has one entry per comment row of the movie |
| CommentRoutes.ListedCountIsThreadLength | moviehub-backend/routes/movies.js:30 | a movie's listed comment_count equals the length of its comment thread, when every author has a users row |
| CommentRoutes.ListComments | moviehub-backend/routes/comments.js:18-46 | 400 exactly for a non-integer movie id; otherwise 200, newest created_at first |
| CommentRoutes.ListCommentsEntries | moviehub-backend/routes/comments.js:25-37 | the listing holds only and all the movie's comments |
| CommentRoutes.EditImpliesDelete | moviehub-backend/routes/comments.js:120-178 | whoever may edit may delete; an admin who is not the author may delete but not edit |
| CommentRoutes.AppendNewComment | moviehub-backend/routes/comments.js:70-75 | a comment with a fresh serial id keeps comment ids unique |
| CommentRoutes.AddComment | moviehub-backend/routes/comments.js:49-96 | 400, then 404 for an absent movie, both inserting nothing; otherwise the trimmed body is stored with the caller as author and a fresh id, and the reply is 201 with the author's name and role (500 without a users row) |
| CommentRoutes.Rewrite | moviehub-backend/routes/comments.js:125-131 | the update keeps the number of rows |
| CommentRoutes.RewriteRows | moviehub-backend/routes/comments.js:126-128 | the update sets body and created_at of the rows with the id and leaves every other field and row unchanged |
| CommentRoutes.RewriteKeepsKeys | moviehub-backend/routes/comments.js:125-131 | the update keeps ids unique and the serial bounds |
| CommentRoutes.RewriteFind | moviehub-backend/routes/comments.js:125-133 | the updated comment is the old one with the new body and time: same id, author and movie |
| CommentRoutes.EditComment | moviehub-backend/routes/comments.js:99-152 | 400; then 404 for a missing comment; then 403 unless the caller wrote it, admins included (no change in each); otherwise body and created_at are replaced and 200 returns the comment |
| CommentRoutes.WithoutCommentMembers | moviehub-backend/routes/comments.js:181 | the delete removes exactly the comment with the id |
| CommentRoutes.WithoutCommentUnique | moviehub-backend/routes/comments.js:181 | the delete removes one row and keeps ids unique |
| CommentRoutes.DeleteComment | moviehub-backend/routes/comments.js:155-188 | 400; then 404; then 403 unless author or admin, the comment staying; otherwise 200 and exactly that comment removed |
| ErrorHandler.NameBeforeCode | moviehub-backend/middleware/errorHandler.js:5-31 | ValidationError gives 400 with details = message and UnauthorizedError 401, whatever the code; otherwise 23505 gives 409 and 23503 gives 400 'Invalid Reference' |
| ErrorHandler.Fallback | moviehub-backend/middleware/errorHandler.js:33-37 | an unrecognised error keeps its truthy status or gets 500; its truthy message is sent back as the error text, otherwise 'Internal Server Error'; every reply's error text is non-empty |
| ErrorHandler.StackOnlyInDevelopment | moviehub-backend/middleware/errorHandler.js:36 | the error's own stack is sent exactly for an unrecognised error when NODE_ENV is 'development' |
| ClientData.WithoutMembers | moviehub-frontend/src/components/Comments/CommentSection.jsx:43-47 | the filter keeps exactly the entries with another id |
| ClientData.WithoutAppend | moviehub-frontend/src/components/Movies/MovieList.jsx:48 | the filter distributes over concatenation, so the kept entries stay in order |
| ClientData.WithoutAbsent | moviehub-frontend/src/pages/AdminDashboard.jsx:40-41 | filtering out an absent id leaves the list unchanged |
| MovieListComponent.VoteUpdateOrdered | moviehub-frontend/src/components/Movies/MovieList.jsx:41 | after a vote update the list is ordered by score, highest first, a missing score counting as 0 |
| MovieListComponent.VoteUpdateEntries | moviehub-frontend/src/components/Movies/MovieList.jsx:35-40 | only the entry with the voted id changes, and only by merging the vote data; every other entry is kept as it was |
| MovieListComponent.MergedMembers | moviehub-frontend/src/components/Movies/MovieList.jsx:37-40 | the same before sorting: the map merges into the voted entry and keeps every other one |
| MovieListComponent.VoteUpdateIds | moviehub-frontend/src/components/Movies/MovieList.jsx:36-41 | a vote update keeps the length and the multiset of ids |
| MovieListComponent.ClientTieOrder | moviehub-frontend/src/components/Movies/MovieList.jsx:41 | the client ignores created_at: two movies with equal score stay older-first, an order the server's listing never produces |
| MovieListComponent.MixedScores | moviehub-frontend/src/components/Movies/MovieList.jsx:35-43 | after a vote the voted entry carries the vote route's plain score and the others the listing's scaled score; a witness where an upvote moves the voted movie from first to second in the client's list |
| MovieListComponent.MovieList.MovieAdded | moviehub-frontend/src/components/Movies/MovieList.jsx:30-33 | the new movie is put first without re-sorting and the add form closes |
| MovieListComponent.MovieList.VoteUpdate | moviehub-frontend/src/components/Movies/MovieList.jsx:35-43 | the list becomes the merged and re-sorted list |
| MovieListComponent.MovieList.MovieDelete | moviehub-frontend/src/components/Movies/MovieList.jsx:45-54 | the id is filtered out only after a successful delete; on failure the list is unchanged and the error rethrown |
| MovieCardComponent.ToggleRule | moviehub-frontend/src/components/Movies/MovieCard.jsx:25 | the vote sent is 0 exactly when the clicked type is the current user_vote, and the clicked type otherwise |
| MovieCardComponent.ToastAgreesWithReply | moviehub-frontend/src/components/Movies/MovieCard.jsx:38-41 | 'Vote removed' is shown exactly when the server's message is 'Vote removed' |
| MovieCardComponent.ToggleAgainstServer | moviehub-frontend/src/components/Movies/MovieCard.jsx:25-30 | when the card shows the stored vote, a click leaves the stored vote at 0 for the same button and at the clicked type otherwise, and other rows alone |
| MovieCardComponent.MovieCard.StartVote | moviehub-frontend/src/components/Movies/MovieCard.jsx:14-31 | no request without a user (with the login toast) or while a request is in flight (state unchanged); otherwise the toggled type is sent, remembered as pending, and `voting` is set |
| MovieCardComponent.MovieCard.SettleVote | moviehub-frontend/src/components/Movies/MovieCard.jsx:32-46 | a success hands the stats with user_vote = the pending type to the list with its toast; a failure hands nothing up and shows the reply's error or 'Failed to vote'; `voting` is cleared in both cases |
| MovieCardComponent.SecondClickIgnored | moviehub-frontend/src/components/Movies/MovieCard.jsx:20-46 | a second click before the first request settles sends nothing; once it settles, a success has the card re-rendered with the merged entry, so a third click toggles against the vote just sent, and after a failure against the old user_vote |
| CommentSectionComponent.ReplacedEntries | moviehub-frontend/src/components/Comments/CommentSection.jsx:35-41 | an update keeps length, order and ids, replaces the entries with the id and keeps all others |
| CommentSectionComponent.ReplacedAbsent | moviehub-frontend/src/components/Comments/CommentSection.jsx:36-40 | an update whose id is not present leaves the list unchanged |
| CommentSectionComponent.ReplacedTwice | moviehub-frontend/src/components/Comments/CommentSection.jsx:37-39 | applying the same update twice is applying it once |
| CommentSectionComponent.CommentSection.CommentAdded | moviehub-frontend/src/components/Comments/CommentSection.jsx:30-33 | the new comment goes first and the form closes |
| CommentSectionComponent.CommentSection.CommentUpdated | moviehub-frontend/src/components/Comments/CommentSection.jsx:35-41 | the list becomes the replaced list |
| CommentSectionComponent.CommentSection.CommentDeleted | moviehub-frontend/src/components/Comments/CommentSection.jsx:43-47 | the entries with the id are filtered out |
| CommentItemComponent.Permissions | moviehub-frontend/src/components/Comments/CommentItem.jsx:13-14 | canEdit implies canDelete; an admin who is not the author can delete but not edit; with no user neither holds |
| CommentItemComponent.MatchesServer | moviehub-frontend/src/components/Comments/CommentItem.jsx:13-14 | for a comment from the server, the buttons appear exactly when the server's ownership rules allow the request |
| CommentItemComponent.DeleteOutcome | moviehub-frontend/src/components/Comments/CommentItem.jsx:16-31 | a request is made exactly when confirmed, and the thread gets the comment's id exactly when the delete succeeded |
| AdminDashboardPage.TotalAppend | moviehub-frontend/src/pages/AdminDashboard.jsx:66-67 | the `reduce` totals are additive over a split of the list |
| AdminDashboardPage.TotalWithout | moviehub-frontend/src/pages/AdminDashboard.jsx:40 | after a delete the totals drop by exactly the removed entries' figures |
| AdminDashboardPage.NoCountsNoVotes | moviehub-frontend/src/pages/AdminDashboard.jsx:66 | entries without upvotes and downvotes fields add 0 to totalVotes |
| AdminDashboardPage.ListingVoteTotal | moviehub-frontend/src/pages/AdminDashboard.jsx:64-66 | over the movie listing totalMovies is the number of movies and totalVotes is 0, as listing rows carry no upvotes or downvotes |
| AdminDashboardPage.AdminDashboard.DeleteMovie | moviehub-frontend/src/pages/AdminDashboard.jsx:33-46 | no request without confirmation; both lists lose the id only after a successful delete, otherwise both are unchanged |
| BrowserStorage.SessionKeys | moviehub-frontend/src/contexts/AuthContext.jsx:41-42 | a sign-in writes exactly the two session keys and a sign-out removes exactly them; other keys are untouched |
| BrowserStorage.SaveThenClear | moviehub-frontend/src/contexts/AuthContext.jsx:72-75 | signing in and then out leaves the store as signing out alone would |
| AuthContextProvider.Session.Restore | moviehub-frontend/src/contexts/AuthContext.jsx:19-34 | the user is restored only when both keys hold a value; an unparsable saved user removes both keys; loading ends in every case; a fresh session stays consistent |
| AuthContextProvider.Session.SignIn | moviehub-frontend/src/contexts/AuthContext.jsx:36-70 | success writes both keys and sets the user; failure changes nothing and returns the reply's error or the fallback |
| AuthContextProvider.Session.Login | moviehub-frontend/src/contexts/AuthContext.jsx:36-52 | as SignIn with 'Login failed' |
| AuthContextProvider.Session.Register | moviehub-frontend/src/contexts/AuthContext.jsx:54-70 | as SignIn with 'Registration failed' |
| AuthContextProvider.Session.Logout | moviehub-frontend/src/contexts/AuthContext.jsx:72-77 | both keys are removed and the user is cleared |
| ProtectedRouteGuard.GuardOutcomes | moviehub-frontend/src/components/Auth/ProtectedRoute.jsx:4-29 | spinner exactly while loading; redirect exactly without a user; access denied exactly for a non-admin on an admin route; children otherwise |
| ProtectedRouteGuard.RoleIrrelevant | moviehub-frontend/src/components/Auth/ProtectedRoute.jsx:19 | without requireAdmin the role plays no part |
| ProtectedRouteGuard.GuardOfSession | moviehub-frontend/src/contexts/AuthContext.jsx:79-90 | an admin route renders exactly when `isAdmin()` holds after loading, any other protected route exactly when `isAuthenticated` does |
| ApiClient.BearerRoundTrip | moviehub-frontend/src/utils/api.js:22 | the server's `substring(7)` recovers exactly the token from `Bearer <token>` |
| ApiClient.ListingSeesStoredToken | moviehub-frontend/src/utils/api.js:20-23 | the listing route verifies exactly the stored token, and sees no user when none is stored |
| ApiClient.SessionAuthorization | moviehub-frontend/src/utils/api.js:20-24 | after a sign-in with a non-empty token requests carry it; after a sign-out or a 401 they carry none |
| ApiClient.InterceptRequest | moviehub-frontend/src/utils/api.js:18-29 | with a stored token the request gets `Authorization: Bearer <token>`; otherwise its headers are untouched |
| ApiClient.InterceptError | moviehub-frontend/src/utils/api.js:32-46 | a 401 removes both session keys and redirects to /login; other errors leave storage alone; every error is rejected again |

## Left out

- Authentication and admin middleware (`middleware/auth.js`, `middleware/admin.js`) are not part of this model. Each route receives its `Caller` (id and role) as a parameter, and the 401/403 replies of the middleware are not modelled.
- JWT verification is the parameter `verify` (None where it throws). `NOW()` is a `Timestamp` parameter, and timestamps are integers.
- The database is modelled without concurrency: each request is one atomic step, and the uniqueness constraint holds as an invariant. The votes table is a sequence of rows with a one-row-per-key invariant, not a map, because the sums and joins need an enumeration.
- MovieRoutes.AddMovie and CommentRoutes.AddComment store the new row before the users lookup. So a caller without a users row gets 500 with the row kept. This assumes `movies.added_by` and `comments.user_id` have no foreign key to `users`. With such a key the INSERT would fail, nothing would be stored, and the reply would still be 500. The schema is not part of this model.
- Ids are unbounded integers. An id that passes `isInt()` but lies outside PostgreSQL's `integer` range makes the query raise, and the source then answers 500 from its `catch`. The model answers as for any absent id instead:
  - 404 in VoteWriter.SubmitVote, MovieRoutes.DeleteMovie, CommentRoutes.AddComment, CommentRoutes.EditComment and CommentRoutes.DeleteComment;
  - 200 with zero stats in MovieRoutes.MovieVotes;
  - 200 with an empty thread in CommentRoutes.ListComments.
- Cascades on movie delete are not modelled, because the schema is not part of this model. Votes and comments of a deleted movie stay in their tables.
- Database failures are modelled in two places:
  - the vote transaction (the `fault` parameter, at the check or at the write);
  - the caller's-votes query of MovieRoutes.ListMovies (the `votesFail` parameter). Its failure is swallowed by the inner `catch`, so the reply is still 200, with the listing without user_vote.

  Other failures would give the 500 replies of the remaining `catch` blocks, and those replies are not modelled. Two exceptions are modelled:
  - a non-integer path id that PostgreSQL would reject;
  - a missing users row at the users lookup that follows the INSERT in MovieRoutes.AddMovie and CommentRoutes.AddComment, and the UPDATE in CommentRoutes.EditComment.
- The order of SQL rows with equal sort keys is unspecified; the model picks the stable order.
- node-postgres delivers COUNT/SUM as strings under some configurations. The model uses integers. `vote_type` is taken as an already-numeric value.
- express-validator's error objects are modelled by their `msg` text only.
- ErrorHandler.HandleError: the stack is a string field of the error; logging (`console.error`) is not modelled.
- The client's loaders (`fetchMovies`, `fetchComments`, `fetchData`) only assign a reply to state, so they are not modelled. The `loading`, `deleting`, `isEditing` and `showComments` UI flags are not modelled either.
- The average score of the dashboard is a float formatted with `toFixed`, so it is not modelled. Date formatting is not modelled.
- Toasts, `window.confirm`, navigation and rendering:
  - toast texts are modelled only for the vote buttons (MovieCard.jsx) and for the auth failure message, as `AuthResult.error`;
  - the login and register success toasts ("Welcome back, <name>!", "Welcome to MovieHub, <name>!") and the "Logged out successfully" toast are not modelled;
  - the answer to a confirmation is a parameter;
  - the 401 redirect is an out-parameter.
- MovieCard's own delete button (`handleDelete`), AddMovie, CommentForm, Header, Home and App are not part of this model.
- AuthContextProvider.Session.Restore: `JSON.parse` is a parameter returning None where it throws. A saved value that parses to a non-object such as `null` is not distinguished.
- ApiClient.InterceptError: a 401 clears storage but not the context's `user`. The source relies on the page reload that follows, and the model does not capture that reload. So `Consistent()` is not claimed after this method.
- The success branch of the response interceptor returns the response unchanged, so it has no model.
- The axios endpoint table only wraps requests, so it is not modelled.
- MovieRoutes.TopMovies states only the status and the bound of 10 rows. The prefix relation to the listing is stated by Ranking.TopIsListingPrefix.
