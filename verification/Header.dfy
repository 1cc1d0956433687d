/** The site header: the keyword search box, the filter panel toggle and
    the hand-off of the filters to the results page, the signed-in check
    that picks the icons, and the logout button. */
module Header {
  import opened Basics
  import opened QueryString
  import Accounts
  import SearchFilters
  import SearchResults

  /** Where the header navigates. */
  datatype Route = MoviesPage | SearchPage(params: seq<Param>) | LoginPage

  /** The search box: a query of at least two characters opens the results
      for it; a shorter one does nothing. */
  function HandleSearch(query: string): (r: Option<Route>)
    ensures r.Some? <==> |query| > 1
    ensures r.Some? ==> r.value.SearchPage? && GetOrEmpty(r.value.params, "q") == query
  {
    if |query| > 1 then Some(SearchPage([Param("q", query)])) else None
  }

  predicate AllEmpty(f: SearchFilters.Filters) {
    f.kind == "" && f.year == "" && f.genre == "" && f.country == ""
  }

  /** The query string of a filter search: type, year, genre and country,
      in that order, each only when set. */
  function FilterParams(f: SearchFilters.Filters): seq<Param> {
    var ps := AppendIfSet([], "type", f.kind);
    var ps := AppendIfSet(ps, "year", f.year);
    var ps := AppendIfSet(ps, "genre", f.genre);
    AppendIfSet(ps, "country", f.country)
  }

  /** The filter panel's report: all-empty filters open the movies page,
      anything else the results page with the filters that are set. */
  function HandleFilterSearch(f: SearchFilters.Filters): (r: Route)
    ensures r == MoviesPage <==> AllEmpty(f)
    ensures !AllEmpty(f) ==> r.SearchPage? && 0 < |r.params| <= 4
    ensures !AllEmpty(f) ==> forall i :: 0 <= i < |r.params| ==> r.params[i].value != ""
  {
    if AllEmpty(f) then MoviesPage else SearchPage(FilterParams(f))
  }

  /** How a key reads after the four conditional appends of
      `FilterParams`. */
  lemma FilterParamReadsBack(f: SearchFilters.Filters, key: string)
    ensures Get(FilterParams(f), key) ==
              if key == "type" then (if f.kind == "" then None else Some(f.kind))
              else if key == "year" then (if f.year == "" then None else Some(f.year))
              else if key == "genre" then (if f.genre == "" then None else Some(f.genre))
              else if key == "country" then (if f.country == "" then None else Some(f.country))
              else None
  {
    var p1 := AppendIfSet([], "type", f.kind);
    var p2 := AppendIfSet(p1, "year", f.year);
    var p3 := AppendIfSet(p2, "genre", f.genre);
    GetAfterAppend([], Param("type", f.kind), key);
    GetAfterAppend(p1, Param("year", f.year), key);
    GetAfterAppend(p2, Param("genre", f.genre), key);
    GetAfterAppend(p3, Param("country", f.country), key);
  }

  /** The results page reads the filters back exactly as the panel
      reported them, with no keyword. */
  lemma FilterSearchRoundTrip(f: SearchFilters.Filters)
    requires !AllEmpty(f)
    ensures SearchResults.ReadCriteria(HandleFilterSearch(f).params)
              == SearchResults.Criteria("", f.kind, f.year, f.genre, f.country)
    ensures SearchResults.HasCriteria(SearchResults.ReadCriteria(HandleFilterSearch(f).params))
  {
    FilterParamReadsBack(f, "q");
    FilterParamReadsBack(f, "type");
    FilterParamReadsBack(f, "year");
    FilterParamReadsBack(f, "genre");
    FilterParamReadsBack(f, "country");
  }

  /** The results page reads a keyword search back as that keyword and no
      filter. */
  lemma KeywordSearchRoundTrip(query: string)
    requires |query| > 1
    ensures SearchResults.ReadCriteria(HandleSearch(query).value.params)
              == SearchResults.Criteria(query, "", "", "", "")
  {
  }

  /** The header shows the favourites link and the logout button exactly
      when a session user is stored (`!!localStorage.getItem("user")`). */
  predicate LoggedIn(store: Accounts.Store) {
    store.session.Some?
  }

  /** The logout button: the session user and the display name are removed
      and the login page opens; the registered accounts stay. */
  function Logout(store: Accounts.Store): (r: (Accounts.Store, Route))
    ensures !LoggedIn(r.0) && r.0.pseudo.None?
    ensures r.0.users == store.users
    ensures r.1 == LoginPage
  {
    (store.(session := None, pseudo := None), LoginPage)
  }

  /** Logging out and back in with an account of the store signs that
      account in again. */
  lemma LogoutThenLogin(store: Accounts.Store, username: string, password: string)
    requires Accounts.LoginAccepted(store.users, username, password)
    ensures var out := Logout(store).0;
      && LoggedIn(Accounts.Submit(Accounts.State(
                    Accounts.Form(true, username, password, "", Accounts.NoNotice, Accounts.NoNotice), out)).store)
  {
  }

  /** The filter button flips the panel's visibility. */
  function ToggleFilters(shown: bool): (r: bool)
    ensures r != shown
  {
    !shown
  }

  lemma ToggleFiltersTwice(shown: bool)
    ensures ToggleFilters(ToggleFilters(shown)) == shown
  {
  }
}
