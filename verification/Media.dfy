/** The catalogue record the metadata provider returns for a movie or a
    series, reduced to the fields the pages read or rewrite. A string field
    the provider leaves out is the empty string, which JavaScript treats as
    falsy exactly like a missing one. */
module Media {
  import opened Basics

  datatype Media = Media(
    id: int,
    title: string,
    name: string,
    posterPath: string,
    releaseDate: string,
    firstAirDate: string,
    /** `media_type`: None when the field is missing (`undefined`). */
    mediaType: Option<string>
  )

  /** `item.poster_path` is truthy. */
  predicate HasPoster(m: Media) {
    m.posterPath != ""
  }

  /** The `filter(m => m.poster_path)` every grid applies before display. */
  function WithPosters(items: seq<Media>): (r: seq<Media>)
    ensures |r| <= |items|
    ensures forall i :: 0 <= i < |r| ==> HasPoster(r[i])
  {
    Filter(HasPoster, items)
  }

  /** The filter keeps exactly the titles of the list that have a poster. */
  lemma WithPostersMembers(items: seq<Media>)
    ensures forall x :: x in WithPosters(items) <==> x in items && HasPoster(x)
  {
    FilterMembers(HasPoster, items);
  }

  /** A single title survives the filter exactly when it has a poster. */
  lemma WithPostersSingle(m: Media)
    ensures HasPoster(m) ==> WithPosters([m]) == [m]
    ensures !HasPoster(m) ==> WithPosters([m]) == []
  {
    assert [m][1..] == [];
  }

  lemma WithPostersAppend(a: seq<Media>, b: seq<Media>)
    ensures WithPosters(a + b) == WithPosters(a) + WithPosters(b)
  {
    FilterAppend(HasPoster, a, b);
  }
}
