/** How the details page lays out its discussion: up to five reviews from
    the metadata provider, then the users' own top-level comments, each with
    the replies that answer its author; and which video becomes the trailer. */
module Threads {
  import opened Basics
  import opened CommentStore

  /** A review as the provider returns it (rating, avatar and dates are
      presentation and are not kept). */
  datatype Review = Review(id: string, author: string, content: string)

  /** Where a top-level entry comes from: a provider review, or the stored
      comment at `index`. */
  datatype Origin = ApiReview(review: Review) | UserComment(index: nat, comment: Comment)

  /** A reply shown under an entry, with its index in the stored list. */
  datatype ReplyView = ReplyView(index: nat, comment: Comment)

  datatype Entry = Entry(author: string, origin: Origin, replies: seq<ReplyView>)

  const MaxReviews := 5

  function ReviewEntries(reviews: seq<Review>): (r: seq<Entry>)
    ensures |r| == |reviews|
    ensures forall i :: 0 <= i < |r| ==>
              r[i] == Entry(reviews[i].author, ApiReview(reviews[i]), [])
  {
    if reviews == [] then []
    else [Entry(reviews[0].author, ApiReview(reviews[0]), [])] + ReviewEntries(reviews[1..])
  }

  /** The positions before `n` of the stored comments not marked as
      replies, in increasing order. */
  function MainIndices(cs: seq<Comment>, n: nat): (r: seq<nat>)
    requires n <= |cs|
    ensures forall k :: 0 <= k < |r| ==> r[k] < n && !cs[r[k]].isReply
    ensures forall k, l :: 0 <= k < l < |r| ==> r[k] < r[l]
  {
    if n == 0 then []
    else if cs[n - 1].isReply then MainIndices(cs, n - 1)
    else MainIndices(cs, n - 1) + [n - 1]
  }

  /** Every position before `n` of a comment not marked as a reply is
      listed. */
  lemma {:induction false} MainIndicesComplete(cs: seq<Comment>, n: nat, i: nat)
    requires i < n <= |cs| && !cs[i].isReply
    ensures i in MainIndices(cs, n)
  {
    if i < n - 1 {
      MainIndicesComplete(cs, n - 1, i);
    }
  }

  /** The user entries: one per stored comment not marked as a reply, in
      stored order, with no replies yet. */
  function MainEntries(cs: seq<Comment>): (r: seq<Entry>)
    ensures forall k :: 0 <= k < |r| ==>
              && r[k].origin.UserComment?
              && r[k].origin.index < |cs|
              && r[k].origin.comment == cs[r[k].origin.index]
              && !cs[r[k].origin.index].isReply
              && r[k].author == cs[r[k].origin.index].author
              && r[k].replies == []
    ensures forall k, l :: 0 <= k < l < |r| ==> r[k].origin.index < r[l].origin.index
  {
    var idx := MainIndices(cs, |cs|);
    seq(|idx|, k requires 0 <= k < |idx| => Entry(cs[idx[k]].author, UserComment(idx[k], cs[idx[k]]), []))
  }

  /** Every stored comment not marked as a reply has its entry. */
  lemma MainEntriesComplete(cs: seq<Comment>, i: nat)
    requires i < |cs| && !cs[i].isReply
    ensures Entry(cs[i].author, UserComment(i, cs[i]), []) in MainEntries(cs)
  {
    var idx := MainIndices(cs, |cs|);
    MainIndicesComplete(cs, |cs|, i);
    var k :| 0 <= k < |idx| && idx[k] == i;
    assert MainEntries(cs)[k] == Entry(cs[i].author, UserComment(i, cs[i]), []);
  }

  /** How many provider reviews head the discussion. */
  function ShownReviews(reviews: seq<Review>): nat {
    if |reviews| <= MaxReviews then |reviews| else MaxReviews
  }

  /** The top level before any reply is attached: the first five reviews,
      then the user entries. */
  function TopLevel(reviews: seq<Review>, cs: seq<Comment>): seq<Entry> {
    ReviewEntries(reviews[..ShownReviews(reviews)]) + MainEntries(cs)
  }

  /** The top level, stated without reference to how it is assembled,
      first for its head: the first five reviews, in order, without
      replies... */
  lemma TopLevelReviewsFirst(reviews: seq<Review>, cs: seq<Comment>)
    ensures
      var r := TopLevel(reviews, cs);
      && ShownReviews(reviews) <= |r|
      && forall i :: 0 <= i < ShownReviews(reviews) ==>
           r[i] == Entry(reviews[i].author, ApiReview(reviews[i]), [])
  {
  }

  /** ... then for the rest: stored comments not marked as replies, each
      shown as itself, in increasing stored order, without replies... */
  lemma TopLevelUserEntries(reviews: seq<Review>, cs: seq<Comment>)
    ensures
      var r := TopLevel(reviews, cs);
      forall k :: ShownReviews(reviews) <= k < |r| ==>
        && r[k].origin.UserComment?
        && r[k].origin.index < |cs|
        && r[k].origin.comment == cs[r[k].origin.index]
        && !cs[r[k].origin.index].isReply
        && r[k].replies == []
    ensures
      var r := TopLevel(reviews, cs);
      forall k, l :: ShownReviews(reviews) <= k < l < |r| ==> r[k].origin.index < r[l].origin.index
  {
    TopLevelTail(reviews, cs);
  }

  /** Past the reviews, the top level is the user entries. */
  lemma TopLevelTail(reviews: seq<Review>, cs: seq<Comment>)
    ensures |TopLevel(reviews, cs)| == ShownReviews(reviews) + |MainEntries(cs)|
    ensures forall k :: ShownReviews(reviews) <= k < |TopLevel(reviews, cs)| ==>
              TopLevel(reviews, cs)[k] == MainEntries(cs)[k - ShownReviews(reviews)]
  {
  }

  /** ... and every such comment appears among them. */
  lemma TopLevelComplete(reviews: seq<Review>, cs: seq<Comment>, i: nat)
    requires i < |cs| && !cs[i].isReply
    ensures Entry(cs[i].author, UserComment(i, cs[i]), []) in TopLevel(reviews, cs)
  {
    MainEntriesComplete(cs, i);
  }

  function Authors(entries: seq<Entry>): (r: seq<string>)
    ensures |r| == |entries|
    ensures forall i :: 0 <= i < |r| ==> r[i] == entries[i].author
  {
    if entries == [] then [] else [entries[0].author] + Authors(entries[1..])
  }

  predicate IsName(name: string, a: string) {
    a == name
  }

  /** The entry a stored comment is shown under: for a reply that names a
      target, the first top-level entry whose author is that target; None
      for a non-reply, and for a reply whose target has no entry. */
  function ParentOf(authors: seq<string>, c: Comment): (r: Option<nat>)
    ensures r.Some? ==> c.isReply && c.replyTo != ""
                        && r.value < |authors| && authors[r.value] == c.replyTo
                        && forall j :: 0 <= j < r.value ==> authors[j] != c.replyTo
    ensures r.None? && c.isReply && c.replyTo != "" ==>
              forall j :: 0 <= j < |authors| ==> authors[j] != c.replyTo
  {
    if c.isReply && c.replyTo != "" then FirstIndex(a => IsName(c.replyTo, a), authors) else None
  }

  /** Reference definition: the replies entry `k` shows are the stored
      comments before `n` whose parent is `k`, in stored order. */
  function RepliesOf(authors: seq<string>, cs: seq<Comment>, k: nat, n: nat): seq<ReplyView>
    requires n <= |cs|
  {
    if n == 0 then []
    else RepliesOf(authors, cs, k, n - 1)
         + (if ParentOf(authors, cs[n - 1]) == Some(k) then [ReplyView(n - 1, cs[n - 1])] else [])
  }

  /** One step of the source's second pass: a reply is pushed onto the first
      entry whose author it answers, and dropped when there is none. */
  function AttachOne(entries: seq<Entry>, i: nat, c: Comment): (r: seq<Entry>)
  {
    if c.isReply && c.replyTo != "" then
      match FirstIndex((e: Entry) => e.author == c.replyTo, entries)
      case None => entries
      case Some(k) => entries[k := entries[k].(replies := entries[k].replies + [ReplyView(i, c)])]
    else entries
  }

  /** The second pass over the first `n` stored comments. */
  function AttachAll(entries: seq<Entry>, cs: seq<Comment>, n: nat): seq<Entry>
    requires n <= |cs|
  {
    if n == 0 then entries else AttachOne(AttachAll(entries, cs, n - 1), n - 1, cs[n - 1])
  }

  /** The discussion as displayed. */
  function Thread(reviews: seq<Review>, cs: seq<Comment>): seq<Entry> {
    AttachAll(TopLevel(reviews, cs), cs, |cs|)
  }

  /** Searching the entries by author and searching their author list
      find the same position. */
  lemma FirstAuthorIndex(entries: seq<Entry>, name: string)
    ensures FirstIndex((e: Entry) => e.author == name, entries)
            == FirstIndex(a => IsName(name, a), Authors(entries))
  {
    FirstIndexAgrees((e: Entry) => e.author == name, entries, a => IsName(name, a), Authors(entries));
  }

  lemma AttachOneMatchesParent(entries: seq<Entry>, i: nat, c: Comment)
    ensures
      var r := AttachOne(entries, i, c);
      && |r| == |entries|
      && forall k :: 0 <= k < |r| ==>
           && r[k].author == entries[k].author && r[k].origin == entries[k].origin
           && r[k].replies == entries[k].replies
                + (if ParentOf(Authors(entries), c) == Some(k) then [ReplyView(i, c)] else [])
  {
    FirstAuthorIndex(entries, c.replyTo);
  }

  /** The second pass keeps the top level: same length, same authors,
      same origins. */
  lemma {:induction false} AttachAllKeepsTop(entries: seq<Entry>, cs: seq<Comment>, n: nat)
    requires n <= |cs|
    ensures |AttachAll(entries, cs, n)| == |entries|
    ensures forall k :: 0 <= k < |entries| ==>
              && AttachAll(entries, cs, n)[k].author == entries[k].author
              && AttachAll(entries, cs, n)[k].origin == entries[k].origin
  {
    if n > 0 {
      AttachAllKeepsTop(entries, cs, n - 1);
      AttachOneMatchesParent(AttachAll(entries, cs, n - 1), n - 1, cs[n - 1]);
    }
  }

  /** The source's two passes agree with the reference definition: entry
      `k` ends up with exactly the replies whose parent is `k`, in stored
      order. */
  lemma {:induction false} AttachAllMatchesReference(entries: seq<Entry>, cs: seq<Comment>, n: nat, k: nat)
    requires n <= |cs| && k < |entries|
    ensures |AttachAll(entries, cs, n)| == |entries|
    ensures AttachAll(entries, cs, n)[k].replies
            == entries[k].replies + RepliesOf(Authors(entries), cs, k, n)
  {
    AttachAllKeepsTop(entries, cs, n);
    if n > 0 {
      AttachAllMatchesReference(entries, cs, n - 1, k);
      AttachAllStep(entries, cs, n, k);
    }
  }

  /** The comment at `n - 1` adds to entry `k` exactly what the reference
      definition adds. */
  lemma AttachAllStep(entries: seq<Entry>, cs: seq<Comment>, n: nat, k: nat)
    requires 0 < n <= |cs| && k < |entries|
    ensures |AttachAll(entries, cs, n - 1)| == |entries|
    ensures var authors := Authors(entries);
      var extra := if ParentOf(authors, cs[n - 1]) == Some(k) then [ReplyView(n - 1, cs[n - 1])] else [];
      && AttachAll(entries, cs, n)[k].replies == AttachAll(entries, cs, n - 1)[k].replies + extra
      && RepliesOf(authors, cs, k, n) == RepliesOf(authors, cs, k, n - 1) + extra
  {
    var before := AttachAll(entries, cs, n - 1);
    AttachAllKeepsTop(entries, cs, n - 1);
    SameAuthors(before, entries);
    AttachOneMatchesParent(before, n - 1, cs[n - 1]);
  }

  lemma SameAuthors(a: seq<Entry>, b: seq<Entry>)
    requires |a| == |b| && forall k :: 0 <= k < |a| ==> a[k].author == b[k].author
    ensures Authors(a) == Authors(b)
  {
  }

  /** The displayed discussion: its top level is the five first reviews and
      the non-reply comments, unchanged; entry `k` carries exactly the
      stored replies whose first matching author is entry `k`. */
  lemma ThreadShape(reviews: seq<Review>, cs: seq<Comment>)
    ensures
      var top := TopLevel(reviews, cs);
      var r := Thread(reviews, cs);
      && |r| == |top|
      && forall k :: 0 <= k < |r| ==>
           && r[k].author == top[k].author && r[k].origin == top[k].origin
           && r[k].replies == RepliesOf(Authors(top), cs, k, |cs|)
  {
    var top := TopLevel(reviews, cs);
    AttachAllKeepsTop(top, cs, |cs|);
    forall k | 0 <= k < |top|
      ensures Thread(reviews, cs)[k].replies == RepliesOf(Authors(top), cs, k, |cs|)
    {
      AttachAllMatchesReference(top, cs, |cs|, k);
    }
  }

  /** A stored comment is listed under entry `k` iff `k` is its parent. */
  lemma {:induction false} RepliesOfMembership(authors: seq<string>, cs: seq<Comment>, k: nat, n: nat, i: nat)
    requires n <= |cs| && i < n
    ensures ReplyView(i, cs[i]) in RepliesOf(authors, cs, k, n) <==> ParentOf(authors, cs[i]) == Some(k)
  {
    var prev := RepliesOf(authors, cs, k, n - 1);
    var extra := if ParentOf(authors, cs[n - 1]) == Some(k) then [ReplyView(n - 1, cs[n - 1])] else [];
    assert RepliesOf(authors, cs, k, n) == prev + extra;
    if i < n - 1 {
      RepliesOfMembership(authors, cs, k, n - 1, i);
      assert ReplyView(i, cs[i]) !in extra;
    } else {
      RepliesOfIndicesBelow(authors, cs, k, n - 1);
      assert ReplyView(i, cs[i]) !in prev;
    }
  }

  lemma {:induction false} RepliesOfIndicesBelow(authors: seq<string>, cs: seq<Comment>, k: nat, n: nat)
    requires n <= |cs|
    ensures forall v :: v in RepliesOf(authors, cs, k, n) ==> v.index < n
  {
    if n > 0 {
      RepliesOfIndicesBelow(authors, cs, k, n - 1);
    }
  }

  /** A reply whose target author has no top-level entry is shown nowhere. */
  lemma OrphanReplyDropped(reviews: seq<Review>, cs: seq<Comment>, i: nat)
    requires i < |cs| && cs[i].isReply && cs[i].replyTo != ""
    requires forall e :: e in TopLevel(reviews, cs) ==> e.author != cs[i].replyTo
    ensures forall k :: 0 <= k < |Thread(reviews, cs)| ==>
              ReplyView(i, cs[i]) !in Thread(reviews, cs)[k].replies
  {
    var top := TopLevel(reviews, cs);
    ThreadShape(reviews, cs);
    forall k | 0 <= k < |Thread(reviews, cs)|
      ensures ReplyView(i, cs[i]) !in Thread(reviews, cs)[k].replies
    {
      assert forall j :: 0 <= j < |top| ==> Authors(top)[j] != cs[i].replyTo by {
        forall j | 0 <= j < |top| ensures Authors(top)[j] != cs[i].replyTo {
          assert top[j] in top;
        }
      }
      RepliesOfMembership(Authors(top), cs, k, |cs|, i);
    }
  }

  /** A provider video. */
  datatype Video = Video(site: string, kind: string, key: string, name: string)

  predicate IsYouTube(v: Video) {
    v.site == "YouTube"
  }

  predicate IsTrailerLike(v: Video) {
    v.site == "YouTube" && (v.kind == "Trailer" || v.kind == "Teaser")
  }

  /** The video embedded as trailer: the first YouTube trailer or teaser,
      else the first YouTube video of any kind, else none. */
  function Trailer(videos: seq<Video>): (r: Option<Video>)
    ensures r.None? <==> forall i :: 0 <= i < |videos| ==> !IsYouTube(videos[i])
    ensures r.Some? ==> r.value in videos && IsYouTube(r.value)
    ensures (exists i :: 0 <= i < |videos| && IsTrailerLike(videos[i])) ==>
              exists i :: 0 <= i < |videos| && videos[i] == r.value && IsTrailerLike(videos[i])
                          && forall j :: 0 <= j < i ==> !IsTrailerLike(videos[j])
    ensures (forall i :: 0 <= i < |videos| ==> !IsTrailerLike(videos[i])) && r.Some? ==>
              exists i :: 0 <= i < |videos| && videos[i] == r.value
                          && forall j :: 0 <= j < i ==> !IsYouTube(videos[j])
  {
    match Find(IsTrailerLike, videos)
    case Some(v) => Some(v)
    case None => Find(IsYouTube, videos)
  }
}
