/** A person's filmography page: the acting credits the provider returns,
    reduced to those with a poster, each handed to the card with a media
    type it can link with. */
module Filmography {
  import opened Basics
  import opened Media

  /** What the credits request brings back: a failure (the list keeps its
      previous value), or a reply whose `cast` field may be missing. */
  datatype CreditsReply = Failed | Got(cast: Option<seq<Media>>)

  /** The credits state after the request: `creditsData.cast || []`. */
  function LoadCredits(previous: seq<Media>, reply: CreditsReply): (r: seq<Media>)
    ensures reply.Failed? ==> r == previous
    ensures reply.Got? && reply.cast.None? ==> r == []
    ensures reply.Got? && reply.cast.Some? ==> r == reply.cast.value
  {
    match reply
    case Failed => previous
    case Got(cast) => cast.GetOr([])
  }

  /** `item.media_type || (item.first_air_date ? 'tv' : 'movie')`: a
      non-empty type is kept; otherwise a credit with a first air date is a
      series and any other a movie. */
  function MediaType(m: Media): (t: string)
    ensures m.mediaType.Some? && m.mediaType.value != "" ==> t == m.mediaType.value
    ensures (m.mediaType.None? || m.mediaType.value == "") ==> (t == "tv" <==> m.firstAirDate != "")
    ensures (m.mediaType.None? || m.mediaType.value == "") ==> (t == "tv" || t == "movie")
  {
    if m.mediaType.Some? && m.mediaType.value != "" then m.mediaType.value
    else if m.firstAirDate != "" then "tv" else "movie"
  }

  /** The card of a credit: the credit with its media type filled in. */
  function Card(m: Media): (c: Media)
    ensures c.mediaType == Some(MediaType(m))
    ensures c.(mediaType := m.mediaType) == m
  {
    m.(mediaType := Some(MediaType(m)))
  }

  /** The grid: the credits with a poster, each turned into its card. */
  function Shown(credits: seq<Media>): (r: seq<Media>)
    ensures |r| <= |credits|
    ensures forall i :: 0 <= i < |r| ==> HasPoster(r[i]) && r[i].mediaType.Some?
  {
    var ws := WithPosters(credits);
    seq(|ws|, i requires 0 <= i < |ws| => Card(ws[i]))
  }

  /** The grid of no credits is empty. */
  lemma ShownEmpty()
    ensures Shown([]) == []
  {
  }

  /** The grid read credit by credit: the first credit contributes its card
      exactly when it has a poster, and the rest follow in order. */
  lemma ShownCons(c: Media, cs: seq<Media>)
    ensures Shown([c] + cs) == (if HasPoster(c) then [Card(c)] else []) + Shown(cs)
  {
    ShownAppend([c], cs);
    WithPostersSingle(c);
  }

  /** Every credit with a poster gets its card. */
  lemma ShownIsPosteredCredits(credits: seq<Media>, m: Media)
    ensures m in credits && HasPoster(m) ==> Card(m) in Shown(credits)
  {
    var ws := WithPosters(credits);
    WithPostersMembers(credits);
    if m in credits && HasPoster(m) {
      var k :| 0 <= k < |ws| && ws[k] == m;
      assert Shown(credits)[k] == Card(m);
    }
  }

  /** Cards keep credit order: the grid of two lists of credits is the two
      grids one after the other. */
  lemma ShownAppend(a: seq<Media>, b: seq<Media>)
    ensures Shown(a + b) == Shown(a) + Shown(b)
  {
    WithPostersAppend(a, b);
  }

  /** A missing cast shows an empty grid. */
  lemma MissingCastShowsNothing(previous: seq<Media>)
    ensures Shown(LoadCredits(previous, Got(None))) == []
  {
  }
}
