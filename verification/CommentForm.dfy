/** The reusable comment section: the five-star widget, the submit form with
    its validation, and the owner-only edit and delete controls. */
module CommentForm {
  import opened Basics
  import Accounts
  import opened CommentStore

  const StarCount := 5

  /** `StarRating`: star `k` (1 to 5) lights up when it is at most the
      hovered star, or, when nothing is hovered (0), at most the rating. The
      details page's own widget uses the same rule. */
  predicate StarFilled(k: int, hovered: int, rating: int) {
    if hovered != 0 then k <= hovered else k <= rating
  }

  /** The lit stars always form a prefix of 1..5, of the length the active
      value (hover, else rating) selects, clamped to 0..5. */
  lemma FilledStarsFormPrefix(hovered: int, rating: int, j: int, k: int)
    requires 1 <= j <= k <= StarCount
    ensures StarFilled(k, hovered, rating) ==> StarFilled(j, hovered, rating)
    ensures
      var active := if hovered != 0 then hovered else rating;
      StarFilled(k, hovered, rating) <==> k <= active
  {
  }

  /** The number of lit stars. */
  function FilledCount(hovered: int, rating: int): (n: nat)
    ensures n <= StarCount
    ensures forall k :: 1 <= k <= StarCount ==> (StarFilled(k, hovered, rating) <==> k <= n)
  {
    var active := if hovered != 0 then hovered else rating;
    if active <= 0 then 0 else if active >= StarCount then StarCount else active
  }

  /** The messages the form shows. */
  datatype FormError =
    | NoError
    | MustSignIn    // "Vous devez être connecté pour publier un commentaire."
    | MustRate      // "Veuillez donner une note."

  /** The form's text, its star rating and the error on display. */
  datatype SubmitForm = SubmitForm(text: string, rating: int, error: FormError)

  /** `handleSubmit`: a signed-out visitor is refused first, an unrated
      comment next; otherwise the submission goes to `onSubmit` with the
      session username as author and the form resets. */
  function Submit(user: Option<Accounts.User>, f: SubmitForm): (r: (SubmitForm, Option<Submission>))
    ensures user.None? ==> r == (f.(error := MustSignIn), None)
    ensures user.Some? && f.rating == 0 ==> r == (f.(error := MustRate), None)
    ensures user.Some? && f.rating != 0 ==>
              && r.0 == SubmitForm("", 0, NoError)
              && r.1.Some?
              && r.1.value.author == user.value.username
              && r.1.value.text == f.text && r.1.value.rating == f.rating
              && !r.1.value.isReply
  {
    if user.None? then (f.(error := MustSignIn), None)
    else if f.rating == 0 then (f.(error := MustRate), None)
    else (SubmitForm("", 0, NoError), Some(Submission(f.text, f.rating, user.value.username, "", false)))
  }

  /** A submission the form lets through, were it handed to the store, would
      file a rated comment under the session username (the section is not
      rendered by the details page, so this path is not taken as written). */
  lemma SubmittedCommentIsRated(user: Accounts.User, f: SubmitForm, date: string, time: string,
                                comments: seq<Comment>)
    requires f.rating != 0
    ensures
      var s := Submit(Some(user), f).1.value;
      var r := AddComment(Some(user), s, date, time, comments);
      && r[0].rating == Some(f.rating) && r[0].author == user.username && r[1..] == comments
  {
  }

  /** Which comment is being edited, and the edit form's text and rating (a
      rating of None is `undefined`, which lights no star). The edit and
      delete buttons of a comment appear only when `IsOwner` holds of it. */
  datatype EditState = EditState(editing: Option<nat>, text: string, rating: Option<int>)

  /** "Modifier": edit mode on comment `idx`, loaded with its current text
      and rating. */
  function StartEdit(idx: nat, c: Comment): (e: EditState)
    ensures e.editing == Some(idx)
    ensures e.text == c.text
    ensures e.rating == c.rating
  {
    EditState(Some(idx), c.text, c.rating)
  }

  /** A click on star `k` of the edit form's widget. */
  function PickEditStar(e: EditState, k: int): (r: EditState)
    ensures r.rating == Some(k) && r.editing == e.editing && r.text == e.text
  {
    e.(rating := Some(k))
  }

  /** The edit form's payload: every field of the comment, with the text and
      the rating replaced. */
  function EditPayload(c: Comment, text: string, rating: Option<int>): Patch {
    Patch(Some(text), Some(c.author), Some(c.date), Some(c.time), Some(rating),
          Some(c.isReply), Some(c.replyTo))
  }

  /** Merging the payload changes exactly the text and the rating. */
  lemma EditPayloadReplacesOnlyTextAndRating(c: Comment, text: string, rating: Option<int>)
    ensures Merge(c, EditPayload(c, text, rating)) == c.(text := text, rating := rating)
  {
  }

  /** "Enregistrer": the author's edit is handed to `onEdit`; edit mode ends
      whoever pressed it. */
  function SaveEdit(user: Option<Accounts.User>, e: EditState, c: Comment): (r: (EditState, Option<Patch>))
    ensures r.0.editing.None?
    ensures r.1.Some? <==> IsOwner(user, c)
    ensures r.1.Some? ==> Merge(c, r.1.value) == c.(text := e.text, rating := e.rating)
  {
    EditPayloadReplacesOnlyTextAndRating(c, e.text, e.rating);
    (e.(editing := None),
     if IsOwner(user, c) then Some(EditPayload(c, e.text, e.rating)) else None)
  }

  /** "Annuler": edit mode ends and nothing is sent. */
  function CancelEdit(e: EditState): (r: EditState)
    ensures r.editing.None? && r.text == e.text && r.rating == e.rating
  {
    e.(editing := None)
  }

  /** Were the section's edit handed to the store, the two would agree on
      who may edit: the controls are shown exactly to the user whose edit
      the store accepts, and saving changes only the text and rating of that
      entry. The details page never renders the section, so this describes
      a path the application as written does not take. */
  lemma OwnerEditRoundTrip(user: Accounts.User, idx: nat, comments: seq<Comment>, text: string, rating: int)
    requires idx < |comments| && IsOwner(Some(user), comments[idx])
    ensures
      var e := PickEditStar(StartEdit(idx, comments[idx]).(text := text), rating);
      var saved := SaveEdit(Some(user), e, comments[idx]);
      var r := EditComment(Some(user), idx, saved.1.value, comments);
      && |r| == |comments|
      && r[idx] == comments[idx].(text := text, rating := Some(rating))
      && forall j :: 0 <= j < |r| && j != idx ==> r[j] == comments[j]
  {
  }
}
