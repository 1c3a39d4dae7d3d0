/** A movie's comment thread on the client: the `comments` and `showAddComment` state of
    the CommentSection component and the three callbacks its children call. */
module CommentSectionComponent {
  import opened Sorting
  import opened ClientData

  /** The callback of `comments.map`: the entry with the updated comment's id is replaced
      by it. */
  function ReplaceWith(updated: ClientComment): ClientComment -> ClientComment
  {
    (c: ClientComment) => if c.id == updated.id then updated else c
  }

  /** The list after `handleCommentUpdated(updated)`. */
  function Replaced(comments: seq<ClientComment>, updated: ClientComment): seq<ClientComment>
  {
    MapSeq(ReplaceWith(updated), comments)
  }

  /** An update keeps the length and the id at every position, puts the updated comment
      where its id was and leaves every other entry as it was. */
  lemma ReplacedEntries(comments: seq<ClientComment>, updated: ClientComment)
    ensures var r := Replaced(comments, updated);
      && |r| == |comments|
      && (forall i | 0 <= i < |r| :: r[i].id == comments[i].id)
      && (forall i | 0 <= i < |r| && comments[i].id == updated.id :: r[i] == updated)
      && (forall i | 0 <= i < |r| && comments[i].id != updated.id :: r[i] == comments[i])
  {
  }

  /** An update whose id is not in the list leaves the list unchanged. */
  lemma ReplacedAbsent(comments: seq<ClientComment>, updated: ClientComment)
    requires forall c | c in comments :: c.id != updated.id
    ensures Replaced(comments, updated) == comments
  {
    var r := Replaced(comments, updated);
    forall i | 0 <= i < |r| ensures r[i] == comments[i] {
      assert comments[i] in comments;
    }
  }

  /** Applying the same update twice is applying it once. */
  lemma ReplacedTwice(comments: seq<ClientComment>, updated: ClientComment)
    ensures Replaced(Replaced(comments, updated), updated) == Replaced(comments, updated)
  {
  }

  class CommentSection {
    var comments: seq<ClientComment>
    var showAddComment: bool

    /** The initial state: no comments, the add form closed. */
    constructor ()
      ensures comments == [] && !showAddComment
    {
      comments := [];
      showAddComment := false;
    }

    /** `handleCommentAdded`: the new comment goes first and the form closes. */
    method CommentAdded(c: ClientComment)
      modifies this
      ensures comments == [c] + old(comments)
      ensures !showAddComment
    {
      comments := [c] + comments;
      showAddComment := false;
    }

    /** `handleCommentUpdated`: replace the entries with the updated comment's id. */
    method CommentUpdated(updated: ClientComment)
      modifies this
      ensures comments == Replaced(old(comments), updated)
      ensures showAddComment == old(showAddComment)
    {
      comments := Replaced(comments, updated);
    }

    /** `handleCommentDeleted`: drop the entries with the id, keeping the others in order. */
    method CommentDeleted(id: int)
      modifies this
      ensures comments == Without(old(comments), id, CommentIdOf)
      ensures showAddComment == old(showAddComment)
    {
      comments := Without(comments, id, CommentIdOf);
    }
  }
}
