/** The per-title comment list of the details page: adding (top-level
    comments and replies), deleting and editing, each guarded by the session
    user, plus the two forms that feed `handleAddComment`. */
module CommentStore {
  import opened Basics
  import Accounts

  /** A stored comment. `rating` is None when the field is absent; `isReply`
      is false and `replyTo` empty when those fields are absent. */
  datatype Comment = Comment(
    text: string,
    author: string,
    date: string,
    time: string,
    rating: Option<int>,
    isReply: bool,
    replyTo: string
  )

  /** The argument object of `handleAddComment`; a missing `rating` is 0 and
      a missing `isReply` is false, both falsy. */
  datatype Submission = Submission(text: string, rating: int, author: string,
                                   replyTo: string, isReply: bool)

  /** Fields spread over a comment by an edit: Some overwrites, None keeps.
      A rating spread as `undefined` is Some(None): the field is dropped when
      the list is serialised. */
  datatype Patch = Patch(
    text: Option<string>,
    author: Option<string>,
    date: Option<string>,
    time: Option<string>,
    rating: Option<Option<int>>,
    isReply: Option<bool>,
    replyTo: Option<string>
  )

  /** The signed-in user may change this comment: they wrote it. */
  predicate IsOwner(session: Option<Accounts.User>, c: Comment) {
    session.Some? && c.author == session.value.username
  }

  /** The record `handleAddComment` builds. The author is always the session
      username; the rating is kept only on a non-reply with a non-zero
      rating; the reply marks are set only when a reply names its target. */
  function NewComment(s: Submission, username: string, date: string, time: string): (c: Comment)
    ensures c.author == username && c.text == s.text && c.date == date && c.time == time
    ensures c.rating.Some? <==> !s.isReply && s.rating != 0
    ensures c.rating.Some? ==> c.rating.value == s.rating
    ensures c.isReply <==> s.isReply && s.replyTo != ""
    ensures c.replyTo == (if c.isReply then s.replyTo else "")
  {
    Comment(s.text, username, date, time,
            if !s.isReply && s.rating != 0 then Some(s.rating) else None,
            s.isReply && s.replyTo != "",
            if s.isReply && s.replyTo != "" then s.replyTo else "")
  }

  /** `handleAddComment`: nothing without a session user, otherwise the new
      comment is put in front of the others. The clock is a parameter. */
  function AddComment(session: Option<Accounts.User>, s: Submission, date: string, time: string,
                      comments: seq<Comment>): (r: seq<Comment>)
    ensures session.None? ==> r == comments
    ensures session.Some? ==> |r| == |comments| + 1
    ensures session.Some? ==> forall i :: 0 <= i < |comments| ==> r[i + 1] == comments[i]
    ensures session.Some? ==> r[0].author == session.value.username && r[0].text == s.text
    ensures session.Some? ==> r[0] == NewComment(s, session.value.username, date, time)
  {
    if session.None? then comments
    else [NewComment(s, session.value.username, date, time)] + comments
  }

  /** `handleDeleteComment`: the entry at `idx` goes when the session user
      wrote it; any other request (no session, not the author, an index out
      of range) leaves the list as it was. */
  function DeleteComment(session: Option<Accounts.User>, idx: int, comments: seq<Comment>): (r: seq<Comment>)
    ensures (0 <= idx < |comments| && IsOwner(session, comments[idx])) ==>
              && |r| == |comments| - 1
              && (forall j :: 0 <= j < idx ==> r[j] == comments[j])
              && (forall j :: idx <= j < |r| ==> r[j] == comments[j + 1])
    ensures !(0 <= idx < |comments| && IsOwner(session, comments[idx])) ==> r == comments
  {
    if 0 <= idx < |comments| && IsOwner(session, comments[idx]) then
      comments[..idx] + comments[idx + 1..]
    else comments
  }

  /** `{ ...c, ...patch }`. */
  function Merge(c: Comment, p: Patch): (r: Comment)
    ensures p.text.None? ==> r.text == c.text
    ensures p.text.Some? ==> r.text == p.text.value
    ensures p.author.None? ==> r.author == c.author
    ensures p.author.Some? ==> r.author == p.author.value
    ensures p.date.None? ==> r.date == c.date
    ensures p.date.Some? ==> r.date == p.date.value
    ensures p.time.None? ==> r.time == c.time
    ensures p.time.Some? ==> r.time == p.time.value
    ensures p.rating.None? ==> r.rating == c.rating
    ensures p.rating.Some? ==> r.rating == p.rating.value
    ensures p.isReply.None? ==> r.isReply == c.isReply
    ensures p.isReply.Some? ==> r.isReply == p.isReply.value
    ensures p.replyTo.None? ==> r.replyTo == c.replyTo
    ensures p.replyTo.Some? ==> r.replyTo == p.replyTo.value
  {
    Comment(p.text.GetOr(c.text), p.author.GetOr(c.author), p.date.GetOr(c.date),
            p.time.GetOr(c.time), p.rating.GetOr(c.rating),
            p.isReply.GetOr(c.isReply), p.replyTo.GetOr(c.replyTo))
  }

  /** `handleEditComment`: only the author may edit; only entry `idx`
      changes, by the merge; the length and every other entry stay. */
  function EditComment(session: Option<Accounts.User>, idx: int, p: Patch,
                       comments: seq<Comment>): (r: seq<Comment>)
    ensures |r| == |comments|
    ensures forall j :: 0 <= j < |r| && j != idx ==> r[j] == comments[j]
    ensures (0 <= idx < |comments| && IsOwner(session, comments[idx])) ==>
              r[idx] == Merge(comments[idx], p)
    ensures !(0 <= idx < |comments| && IsOwner(session, comments[idx])) ==> r == comments
  {
    if 0 <= idx < |comments| && IsOwner(session, comments[idx]) then
      comments[idx := Merge(comments[idx], p)]
    else comments
  }

  /** What the details page's own comment form leaves behind: the list, the
      star selection, and whether the "give a rating" alert was raised. */
  datatype FormOutcome = FormOutcome(comments: seq<Comment>, selectedRating: int, ratingAlert: bool)

  /** The details page's top-level form: a rating is required; a rated
      comment is added and the star selection returns to 0. The form only
      exists for a signed-in user. */
  function SubmitTopLevel(session: Option<Accounts.User>, text: string, selectedRating: int,
                          date: string, time: string, comments: seq<Comment>): (r: FormOutcome)
    ensures session.None? ==> r == FormOutcome(comments, selectedRating, false)
    ensures session.Some? && selectedRating == 0 ==> r == FormOutcome(comments, 0, true)
    ensures session.Some? && selectedRating != 0 ==>
              && !r.ratingAlert && r.selectedRating == 0
              && |r.comments| == |comments| + 1 && r.comments[1..] == comments
              && r.comments[0].rating == Some(selectedRating)
              && r.comments[0].author == session.value.username
              && !r.comments[0].isReply
  {
    if session.None? then FormOutcome(comments, selectedRating, false)
    else if selectedRating == 0 then FormOutcome(comments, selectedRating, true)
    else
      var s := Submission(text, selectedRating, session.value.username, "", false);
      FormOutcome(AddComment(session, s, date, time, comments), 0, false)
  }

  /** Which entry's reply box is open, and the text typed in it. */
  datatype ReplyBox = ReplyBox(target: Option<nat>, text: string)

  /** The "Répondre"/"Annuler" button carrying index `idx`: it sets the open
      index to `idx`, or clears it when `idx` is already open; either way the
      typed text is cleared. The index is the comment's position among the
      top-level comments or, for a reply, its position among its siblings, so
      one open index shows a box under every rendered entry carrying it. */
  function ToggleReplyBox(b: ReplyBox, idx: nat): (r: ReplyBox)
    ensures r.text == ""
    ensures r.target == Some(idx) <==> b.target != Some(idx)
    ensures r.target.Some? ==> r.target == Some(idx)
  {
    if b.target == Some(idx) then ReplyBox(None, "") else ReplyBox(Some(idx), "")
  }

  /** The "Envoyer" button of a reply box answering `parentAuthor`: a text
      that is blank after trimming is never added and the box stays as it
      is; otherwise the reply is added and the box closes. */
  function SendReply(session: Option<Accounts.User>, b: ReplyBox, parentAuthor: string,
                     date: string, time: string, comments: seq<Comment>): (r: (ReplyBox, seq<Comment>))
    ensures IsBlank(b.text) ==> r == (b, comments)
    ensures !IsBlank(b.text) ==> r.0 == ReplyBox(None, "")
    ensures !IsBlank(b.text) && session.Some? ==>
              && |r.1| == |comments| + 1
              && r.1[1..] == comments && r.1[0].text == b.text
              && r.1[0].rating.None?
              && r.1[0].author == session.value.username
              && (r.1[0].isReply <==> parentAuthor != "")
              && (parentAuthor != "" ==> r.1[0].replyTo == parentAuthor)
  {
    if IsBlank(b.text) then (b, comments)
    else
      var s := Submission(b.text, 0, if session.Some? then session.value.username else "",
                          parentAuthor, true);
      (ReplyBox(None, ""), AddComment(session, s, date, time, comments))
  }

  /** Pressing the same entry's button twice, with no box or that entry's
      box open, comes back to where it started. */
  lemma ToggleReplyBoxTwice(b: ReplyBox, idx: nat)
    requires b.text == "" && (b.target.None? || b.target == Some(idx))
    ensures ToggleReplyBox(ToggleReplyBox(b, idx), idx) == b
  {
  }

  /** Only the author can remove a comment: after a delete by anyone else,
      every comment of the list is still there. */
  lemma DeleteSparesOthersComments(session: Option<Accounts.User>, idx: int, comments: seq<Comment>)
    requires 0 <= idx < |comments| && !IsOwner(session, comments[idx])
    ensures DeleteComment(session, idx, comments) == comments
  {
  }

  /** Adding a comment and deleting it straight away, as its author, gives
      the original list back. */
  lemma {:induction false} AddThenDelete(session: Option<Accounts.User>, s: Submission,
                                         date: string, time: string, comments: seq<Comment>)
    ensures DeleteComment(session, 0, AddComment(session, s, date, time, comments)) == comments
  {
    var added := AddComment(session, s, date, time, comments);
    if session.Some? {
      assert IsOwner(session, added[0]);
      assert added[1..] == comments;
    }
  }
}
