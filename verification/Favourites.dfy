/** The favourites list: the star button of the details page adds or
    removes the current title, and the favourites page shows the stored list
    newest first. The list lives under the `favoris` storage key; a missing
    key reads as the empty list. */
module Favourites {
  import opened Basics
  import opened Media
  import Accounts

  /** A stored favourite is the same title as the one on display: same id,
      and its `media_type` is the route's type or the details' own one
      (two missing `media_type`s compare equal, as `undefined === undefined`). */
  predicate SameTitle(f: Media, details: Media, kind: string) {
    f.id == details.id && (f.mediaType == Some(kind) || f.mediaType == details.mediaType)
  }

  /** The check that lights the star: `favoris.some(...)`. */
  predicate IsFavourite(favs: seq<Media>, details: Media, kind: string) {
    exists i :: 0 <= i < |favs| && SameTitle(favs[i], details, kind)
  }

  predicate Unrelated(details: Media, kind: string, f: Media) {
    !SameTitle(f, details, kind)
  }

  /** The list with the displayed title unstarred: every entry that is the
      same title goes, every other entry stays, in its order. */
  function Unstarred(favs: seq<Media>, details: Media, kind: string): (r: seq<Media>)
    ensures forall f :: multiset(r)[f] == if SameTitle(f, details, kind) then 0 else multiset(favs)[f]
  {
    FilterCount(f => Unrelated(details, kind, f), favs);
    Filter(f => Unrelated(details, kind, f), favs)
  }

  /** Unstarring works entry by entry: on a concatenation it unstars each
      part, so the surviving entries keep their relative order. */
  lemma UnstarredAppend(a: seq<Media>, b: seq<Media>, details: Media, kind: string)
    ensures Unstarred(a + b, details, kind) == Unstarred(a, details, kind) + Unstarred(b, details, kind)
  {
    FilterAppend(f => Unrelated(details, kind, f), a, b);
  }

  /** A single entry goes exactly when it is the displayed title. */
  lemma UnstarredSingle(f: Media, details: Media, kind: string)
    ensures SameTitle(f, details, kind) ==> Unstarred([f], details, kind) == []
    ensures !SameTitle(f, details, kind) ==> Unstarred([f], details, kind) == [f]
  {
    assert [f][1..] == [];
  }

  /** What a click leaves behind: the stored list and the star state. */
  datatype Toggled = Toggled(favs: seq<Media>, starred: bool)

  /** `handleFavoriteClick`. Without a session user (an alert is shown) or
      before the details have loaded, nothing changes. Otherwise a title
      already present is removed, every matching entry of it, and an absent
      one is appended with the route's type as its `media_type`. */
  function Toggle(session: Option<Accounts.User>, details: Option<Media>, kind: string,
                  favs: seq<Media>, starred: bool): (r: Toggled)
    ensures session.None? || details.None? ==> r == Toggled(favs, starred)
    ensures session.Some? && details.Some? && IsFavourite(favs, details.value, kind) ==>
              && !r.starred
              && !IsFavourite(r.favs, details.value, kind)
              && r.favs == Unstarred(favs, details.value, kind)
              && (forall f :: f in r.favs <==> f in favs && !SameTitle(f, details.value, kind))
    ensures session.Some? && details.Some? && !IsFavourite(favs, details.value, kind) ==>
              && r.starred
              && r.favs == favs + [details.value.(mediaType := Some(kind))]
  {
    if session.None? || details.None? then Toggled(favs, starred)
    else if IsFavourite(favs, details.value, kind) then
      var kept := Unstarred(favs, details.value, kind);
      FilterMembers(f => Unrelated(details.value, kind, f), favs);
      Toggled(kept, false)
    else
      Toggled(favs + [details.value.(mediaType := Some(kind))], true)
  }

  /** Starring a title and unstarring it straight away gives the original
      list back. */
  lemma {:induction false} ToggleTwiceRestores(session: Option<Accounts.User>, details: Media,
                                               kind: string, favs: seq<Media>, starred: bool)
    requires !IsFavourite(favs, details, kind)
    ensures
      var once := Toggle(session, Some(details), kind, favs, starred);
      Toggle(session, Some(details), kind, once.favs, once.starred).favs == favs
  {
    if session.Some? {
      var added := details.(mediaType := Some(kind));
      var once := favs + [added];
      assert SameTitle(added, details, kind);
      assert IsFavourite(once, details, kind) by {
        assert once[|favs|] == added;
      }
      FilterAll(f => Unrelated(details, kind, f), favs);
      FilterAppend(f => Unrelated(details, kind, f), favs, [added]);
      assert Filter(f => Unrelated(details, kind, f), [added]) == [];
    }
  }

  /** The favourites page: the stored list, or the empty list for a missing
      key, shown newest first; the stored list itself is not reordered, the
      page reverses a copy. */
  function Displayed(stored: Option<seq<Media>>): (r: seq<Media>)
    ensures |r| == |stored.GetOr([])|
    ensures forall i :: 0 <= i < |r| ==> r[i] == stored.GetOr([])[|r| - 1 - i]
  {
    Reverse(stored.GetOr([]))
  }

  function Reverse<T>(s: seq<T>): (r: seq<T>)
    ensures |r| == |s|
    ensures forall i :: 0 <= i < |s| ==> r[i] == s[|s| - 1 - i]
  {
    if s == [] then [] else Reverse(s[1..]) + [s[0]]
  }

  /** The page shows "no favourite yet" exactly when the list is empty, in
      particular when the key is missing. */
  predicate ShowsEmptyMessage(stored: Option<seq<Media>>) {
    |stored.GetOr([])| == 0
  }

  lemma MissingKeyShowsEmpty()
    ensures ShowsEmptyMessage(None) && Displayed(None) == []
  {
  }

  /** The title starred last is the first one the favourites page shows. */
  lemma NewestFavouriteShownFirst(session: Accounts.User, details: Media, kind: string,
                                  favs: seq<Media>, starred: bool)
    requires !IsFavourite(favs, details, kind)
    ensures
      var after := Toggle(Some(session), Some(details), kind, favs, starred).favs;
      |Displayed(Some(after))| > 0 && Displayed(Some(after))[0] == details.(mediaType := Some(kind))
  {
  }
}
