/** A movie card's vote buttons: the toggle rule, the in-flight guard and what the card
    reports to the list once the vote request settles. */
module MovieCardComponent {
  import opened Common
  import opened Store
  import opened Aggregates
  import opened VoteWriter
  import opened ClientData
  import opened MovieListComponent

  /** `movie.user_vote === voteType ? 0 : voteType`: clicking the button of the vote the
      card shows withdraws it. */
  function Toggle(current: Option<int>, clicked: int): int
  {
    if current == Some(clicked) then 0 else clicked
  }

  /** The vote sent is 0 exactly when the clicked button is the current vote (or is 0
      itself), and the clicked type otherwise. */
  lemma ToggleRule(current: Option<int>, clicked: int)
    ensures Toggle(current, clicked) == 0 <==> current == Some(clicked) || clicked == 0
    ensures Toggle(current, clicked) != 0 ==> Toggle(current, clicked) == clicked
  {
  }

  /** The success toast for the vote sent. */
  function VoteToast(sent: int): string
  {
    if sent == 0 then "Vote removed" else if sent == 1 then "Upvoted!" else "Downvoted!"
  }

  /** The card's toast and the server's reply message agree on whether the vote was
      removed. */
  lemma ToastAgreesWithReply(sent: int)
    ensures VoteToast(sent) == "Vote removed" <==> VoteMessage(sent) == "Vote removed"
  {
  }

  /** When the card shows the caller's stored vote (the listing's user_vote), a click
      against the vote writer leaves the stored vote at 0 if the button was the stored
      vote and at the clicked type otherwise; every other user's and movie's row is
      untouched. */
  lemma ToggleAgainstServer(votes: seq<Vote>, u: UserId, m: MovieId, clicked: int, now: Timestamp, u': UserId, m': MovieId)
    requires clicked == 1 || clicked == -1
    ensures var sent := Toggle(Some(CurrentVote(votes, u, m)), clicked);
      CurrentVote(ApplyVote(votes, u, m, sent, now), u, m) == if CurrentVote(votes, u, m) == clicked then 0 else clicked
    ensures var sent := Toggle(Some(CurrentVote(votes, u, m)), clicked);
      (u', m') != (u, m) ==> RowOf(ApplyVote(votes, u, m, sent, now), u', m') == RowOf(votes, u', m')
  {
    var sent := Toggle(Some(CurrentVote(votes, u, m)), clicked);
    ApplyVoteRows(votes, u, m, sent, now, u, m);
    ApplyVoteRows(votes, u, m, sent, now, u', m');
  }

  /** How the vote request settled: the reply's stats, or a failure with the reply's
      `error` text when there was one. */
  datatype VoteOutcome = Answered(stats: Stats) | Failed(serverError: Option<string>)

  /** One card. `movie` is the entry the list renders it with (its `movie` prop);
      `pending` is the vote type of the request in flight: the `newVoteType` that the
      awaiting handler still holds. */
  class MovieCard {
    var movie: ClientMovie
    var voting: bool
    var pending: Option<int>

    /** A request is in flight exactly when `voting` is set. */
    predicate Valid()
      reads this
    {
      voting <==> pending.Some?
    }

    constructor (movie: ClientMovie)
      ensures this.movie == movie && !voting && Valid()
    {
      this.movie := movie;
      voting := false;
      pending := None;
    }

    /** The part of `handleVote(clicked)` before the `await`: `loggedIn` is whether the
        context has a user. Returns the vote sent (None when no request is made) and the
        toast shown at once. A click while a request is in flight is ignored. */
    method StartVote(loggedIn: bool, clicked: int) returns (sent: Option<int>, toast: Option<string>)
      requires Valid()
      modifies this
      ensures Valid() && movie == old(movie)
      ensures !loggedIn ==>
        sent.None? && toast == Some("Please login to vote") && voting == old(voting) && pending == old(pending)
      ensures loggedIn && old(voting) ==> sent.None? && toast.None? && voting && pending == old(pending)
      ensures loggedIn && !old(voting) ==>
        sent == Some(Toggle(movie.userVote, clicked)) && toast.None? && voting && pending == sent
    {
      if !loggedIn {
        return None, Some("Please login to vote");
      }
      if voting {
        return None, None;
      }
      voting := true;
      var newVoteType := Toggle(movie.userVote, clicked);
      pending := Some(newVoteType);
      sent := pending;
      toast := None;
    }

    /** The part of `handleVote` after the `await`: `outcome` is how the request settled.
        Returns the vote data handed to the list and the toast shown; the `finally`
        clears `voting`. */
    method SettleVote(outcome: VoteOutcome) returns (update: Option<VoteData>, toast: string)
      requires Valid() && voting
      modifies this
      ensures Valid() && !voting && movie == old(movie)
      ensures outcome.Answered? ==>
        var s := outcome.stats;
        update == Some(VoteData(s.upvotes, s.downvotes, s.score, old(pending).value))
        && toast == VoteToast(old(pending).value)
      ensures outcome.Failed? ==> update.None? && toast == OrDefault(outcome.serverError, "Failed to vote")
    {
      var newVoteType := pending.value;
      match outcome {
        case Answered(stats) =>
          update := Some(VoteData(stats.upvotes, stats.downvotes, stats.score, newVoteType));
          toast := VoteToast(newVoteType);
        case Failed(serverError) =>
          update := None;
          toast := OrDefault(serverError, "Failed to vote");
      }
      // finally
      voting := false;
      pending := None;
    }

    /** The list renders the card again with a new `movie` prop (the card is keyed by the
        movie's id, so its own state survives). */
    method Rerender(m: ClientMovie)
      modifies this
      ensures movie == m && voting == old(voting) && pending == old(pending)
    {
      movie := m;
    }
  }

  /** Two clicks on a fresh card before the first request settles: the first sends the
      toggled vote, the second sends nothing. Once the first settles, a success has the
      list merge the new stats and user_vote into the entry and render the card with it,
      so a third click toggles against the vote just sent; after a failure the card keeps
      its entry. */
  method SecondClickIgnored(movie: ClientMovie, first: int, second: int, third: int, outcome: VoteOutcome)
    returns (sent1: Option<int>, sent2: Option<int>, sent3: Option<int>)
    ensures sent1 == Some(Toggle(movie.userVote, first))
    ensures sent2.None?
    ensures outcome.Answered? ==> sent3 == Some(Toggle(Some(sent1.value), third))
    ensures outcome.Failed? ==> sent3 == Some(Toggle(movie.userVote, third))
  {
    var card := new MovieCard(movie);
    var toast;
    sent1, toast := card.StartVote(true, first);
    sent2, toast := card.StartVote(true, second);
    var update, shown := card.SettleVote(outcome);
    if update.Some? {
      card.Rerender(MergeAt(movie.id, update.value)(card.movie));
    }
    sent3, toast := card.StartVote(true, third);
  }
}
