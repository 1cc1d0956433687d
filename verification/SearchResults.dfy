/** The search results page. Its criteria come from the query string: a
    keyword, or filters (type, year, genre, country). It fetches up to ten
    pages of results, from the keyword search when there is a keyword and
    from the provider's discover endpoint otherwise, keeps the titles with a
    poster and shows them under a title built from the criteria.

    The network is a finite sequence of replies: reply `k` answers the
    request for page `k + 1`; a request past the end of the sequence fails
    like a fetch that throws. */
module SearchResults {
  import opened Basics
  import opened Media
  import opened QueryString
  import SearchFilters

  /** `q`, `type`, `year`, `genre` and `country`, each "" when absent. */
  datatype Criteria = Criteria(query: string, kind: string, year: string, genre: string, country: string)

  /** `params.get(key) || ''` for each criterion. */
  function ReadCriteria(ps: seq<Param>): (c: Criteria)
    ensures c.query == GetOrEmpty(ps, "q") && c.kind == GetOrEmpty(ps, "type")
    ensures c.year == GetOrEmpty(ps, "year") && c.genre == GetOrEmpty(ps, "genre")
    ensures c.country == GetOrEmpty(ps, "country")
  {
    Criteria(GetOrEmpty(ps, "q"), GetOrEmpty(ps, "type"), GetOrEmpty(ps, "year"),
             GetOrEmpty(ps, "genre"), GetOrEmpty(ps, "country"))
  }

  /** At least one criterion is set; otherwise the page asks the visitor
      to pick a filter or type a search and fetches nothing. */
  predicate HasCriteria(c: Criteria) {
    c.query != "" || c.kind != "" || c.year != "" || c.genre != "" || c.country != ""
  }

  /** No more than ten pages are fetched. */
  const MaxPages := 10

  /** A page with fewer raw results than this is the last one. */
  const FullPage := 20

  /** One request: the keyword search for a page, or a discover endpoint
      with its parameters. */
  datatype Request =
    | KeywordSearch(query: string, page: nat)
    | Discover(path: string, params: seq<Param>)

  /** The year parameter of the discover endpoint for a type. */
  function YearKey(kind: string): string {
    if kind == "tv" then "first_air_date_year" else "primary_release_year"
  }

  /** The discover request for a page: series for type `tv`, movies for
      any other type; the page first, then the year, genre and country
      parameters, each only when set. */
  function DiscoverRequest(c: Criteria, page: nat): (r: Request)
    ensures r.Discover?
    ensures |r.params| > 0 && r.params[0] == Param("page", Decimal(page))
  {
    var ps := [Param("page", Decimal(page))];
    var ps := AppendIfSet(ps, YearKey(c.kind), c.year);
    var ps := AppendIfSet(ps, "with_genres", c.genre);
    var ps := AppendIfSet(ps, "with_origin_country", c.country);
    Discover(if c.kind == "tv" then "/discover/tv" else "/discover/movie", ps)
  }

  /** The position a discover parameter takes in the query string. */
  function Rank(key: string): int {
    if key == "page" then 0
    else if key == "first_air_date_year" || key == "primary_release_year" then 1
    else if key == "with_genres" then 2
    else if key == "with_origin_country" then 3
    else 4
  }

  /** What each key of a discover request should carry: the page, the
      year under the type's year key, the genre and the country, each only
      when set, and nothing under any other key. */
  function Expected(c: Criteria, page: nat, key: string): Option<string> {
    if key == "page" then Some(Decimal(page))
    else if key == YearKey(c.kind) then (if c.year == "" then None else Some(c.year))
    else if key == "with_genres" then (if c.genre == "" then None else Some(c.genre))
    else if key == "with_origin_country" then (if c.country == "" then None else Some(c.country))
    else None
  }

  /** The discover request reads back as the criteria: the endpoint
      follows the type, and every key reads as `Expected` says. */
  lemma DiscoverRequestReadsBack(c: Criteria, page: nat, key: string)
    ensures var r := DiscoverRequest(c, page);
      && (r.path == "/discover/tv" <==> c.kind == "tv")
      && (r.path == "/discover/movie" <==> c.kind != "tv")
      && Get(r.params, key) == Expected(c, page, key)
  {
    var p0 := [Param("page", Decimal(page))];
    ReadBackThroughAppends(p0, c, key);
    assert Get(p0, key) == if key == "page" then Some(Decimal(page)) else None;
  }

  /** The discover parameters come in the order page, year, genre,
      country. */
  lemma DiscoverParamsOrdered(c: Criteria, page: nat)
    ensures var ps := DiscoverRequest(c, page).params;
      forall i, j :: 0 <= i < j < |ps| ==> Rank(ps[i].key) < Rank(ps[j].key)
  {
  }

  /** How a key of the discover parameters reads after the three
      conditional appends. */
  lemma ReadBackThroughAppends(p0: seq<Param>, c: Criteria, key: string)
    ensures var p1 := AppendIfSet(p0, YearKey(c.kind), c.year);
      var p2 := AppendIfSet(p1, "with_genres", c.genre);
      var p3 := AppendIfSet(p2, "with_origin_country", c.country);
      && (c.year != "" ==> Get(p1, key) == (if Get(p0, key).Some? then Get(p0, key)
                                            else if key == YearKey(c.kind) then Some(c.year) else None))
      && (c.year == "" ==> Get(p1, key) == Get(p0, key))
      && (c.genre != "" ==> Get(p2, key) == (if Get(p1, key).Some? then Get(p1, key)
                                             else if key == "with_genres" then Some(c.genre) else None))
      && (c.genre == "" ==> Get(p2, key) == Get(p1, key))
      && (c.country != "" ==> Get(p3, key) == (if Get(p2, key).Some? then Get(p2, key)
                                               else if key == "with_origin_country" then Some(c.country) else None))
      && (c.country == "" ==> Get(p3, key) == Get(p2, key))
  {
    var p1 := AppendIfSet(p0, YearKey(c.kind), c.year);
    var p2 := AppendIfSet(p1, "with_genres", c.genre);
    GetAfterAppend(p0, Param(YearKey(c.kind), c.year), key);
    GetAfterAppend(p1, Param("with_genres", c.genre), key);
    GetAfterAppend(p2, Param("with_origin_country", c.country), key);
  }

  /** The request for a page: a keyword, when there is one, decides alone. */
  function RequestFor(c: Criteria, page: nat): (r: Request)
    ensures c.query != "" ==> r == KeywordSearch(c.query, page)
    ensures c.query == "" ==> r == DiscoverRequest(c, page)
  {
    if c.query != "" then KeywordSearch(c.query, page) else DiscoverRequest(c, page)
  }

  /** One reply: a thrown fetch, or a page whose `results` and
      `total_pages` fields may be missing (a zero total is kept as 0). */
  datatype Reply = Thrown | Page(results: Option<seq<Media>>, totalPages: Option<int>)

  /** The discover branch's `data.results || []` and
      `data.total_pages || 1`: a missing list reads as empty, a missing or
      zero total as one page. */
  function Normalise(r: Reply): (n: Reply)
    ensures r.Thrown? <==> n.Thrown?
    ensures n.Page? ==> n.results == Some(r.results.GetOr([]))
    ensures n.Page? ==> n.totalPages.Some? && n.totalPages.value != 0
    ensures n.Page? && r.totalPages.Some? && r.totalPages.value != 0 ==> n.totalPages == r.totalPages
  {
    match r
    case Thrown => Thrown
    case Page(results, total) =>
      Page(Some(results.GetOr([])),
           Some(if total.None? || total.value == 0 then 1 else total.value))
  }

  function ReplyAt(replies: seq<Reply>, k: nat): Reply {
    if k < |replies| then replies[k] else Thrown
  }

  /** Reply `k` as the loop sees it: as returned for a keyword search,
      normalised for a discover request. */
  function Seen(c: Criteria, replies: seq<Reply>, k: nat): Reply {
    if c.query != "" then ReplyAt(replies, k) else Normalise(ReplyAt(replies, k))
  }

  /** The titles with a poster that reply `k` contributes: its results
      when they are a list. */
  function Posters(r: Reply): seq<Media> {
    if r.Page? && r.results.Some? then WithPosters(r.results.value) else []
  }

  /** The titles with a poster of the first `n` replies, in page order. */
  function Gathered(c: Criteria, replies: seq<Reply>, n: nat): seq<Media> {
    if n == 0 then [] else Gathered(c, replies, n - 1) + Posters(Seen(c, replies, n - 1))
  }

  /** Everything gathered has a poster. */
  lemma {:induction false} GatheredHavePosters(c: Criteria, replies: seq<Reply>, n: nat)
    ensures forall i :: 0 <= i < |Gathered(c, replies, n)| ==> HasPoster(Gathered(c, replies, n)[i])
  {
    if n > 0 {
      GatheredHavePosters(c, replies, n - 1);
      var r := Seen(c, replies, n - 1);
      if r.Page? && r.results.Some? {
        FilterMembers(HasPoster, r.results.value);
      }
    }
  }

  /** `page <= totalPages` with `totalPages` possibly `undefined`, which
      makes the comparison false. */
  predicate AtMost(page: int, total: Option<int>) {
    total.Some? && page <= total.value
  }

  /** The total the loop holds after `n` replies: the `total_pages` of the
      latest reply whose results were a list, 1 before any. */
  function TotalAfter(c: Criteria, replies: seq<Reply>, n: nat): Option<int> {
    if n == 0 then Some(1)
    else
      var r := Seen(c, replies, n - 1);
      if r.Page? && r.results.Some? then r.totalPages else TotalAfter(c, replies, n - 1)
  }

  /** After the reply to page `k + 1` the loop asks for page `k + 2`: the
      fetch did not throw, the page was not short, and page `k + 2` is
      within both the total and the ten-page limit. */
  predicate Proceeds(c: Criteria, replies: seq<Reply>, k: nat) {
    var r := Seen(c, replies, k);
    && r.Page?
    && !(r.results.Some? && |r.results.value| < FullPage)
    && k + 2 <= MaxPages
    && AtMost(k + 2, TotalAfter(c, replies, k + 1))
  }

  /** What a search leaves behind: the titles gathered (kept, though not
      shown, when a fetch threw), whether the error message is shown, how
      many pages were requested and the requests sent, in order. */
  datatype Outcome = Outcome(results: seq<Media>, error: bool, pages: nat, sent: seq<Request>)

  /** The titles reply `reply` adds to `acc`. */
  function Added(reply: Reply, acc: seq<Media>): seq<Media> {
    if reply.Page? && reply.results.Some? then acc + WithPosters(reply.results.value) else acc
  }

  /** The total after reply `reply`, from `total` before it. */
  function TotalNext(reply: Reply, total: Option<int>): Option<int> {
    if reply.Page? && reply.results.Some? then reply.totalPages else total
  }

  /** The `while` test after a reply that did not throw. */
  predicate GoesOn(reply: Reply, page: nat, total: Option<int>) {
    && reply.Page?
    && !(reply.results.Some? && |reply.results.value| < FullPage)
    && page + 1 <= MaxPages
    && AtMost(page + 1, TotalNext(reply, total))
  }

  /** Reference definition of the `do ... while` loop from page `page` on,
      with `acc` gathered so far, `total` the current total and `sent` the
      requests made so far. Each turn first sends the request for `page`
      (a keyword search or a discover request), then reads its reply. */
  function FetchFrom(c: Criteria, replies: seq<Reply>, page: nat, acc: seq<Media>, total: Option<int>,
                     sent: seq<Request>): (r: Outcome)
    requires 1 <= page <= MaxPages
    ensures page <= r.pages <= MaxPages
    decreases MaxPages - page
  {
    var sent' := sent + [RequestFor(c, page)];
    var reply := Seen(c, replies, page - 1);
    if reply.Thrown? then Outcome(acc, true, page, sent')
    else if GoesOn(reply, page, total) then
      FetchFrom(c, replies, page + 1, Added(reply, acc), TotalNext(reply, total), sent')
    else Outcome(Added(reply, acc), false, page, sent')
  }

  /** One turn of the loop: a thrown fetch ends it with the error shown; a
      reply ends it, or leads to the next page, as the `while` test says. */
  lemma FetchFromStep(c: Criteria, replies: seq<Reply>, page: nat, acc: seq<Media>, total: Option<int>,
                      sent: seq<Request>)
    requires 1 <= page <= MaxPages
    ensures var reply := Seen(c, replies, page - 1);
      var sent' := sent + [RequestFor(c, page)];
      && (reply.Thrown? ==> FetchFrom(c, replies, page, acc, total, sent) == Outcome(acc, true, page, sent'))
      && (reply.Page? && GoesOn(reply, page, total) ==>
            FetchFrom(c, replies, page, acc, total, sent)
            == FetchFrom(c, replies, page + 1, Added(reply, acc), TotalNext(reply, total), sent'))
      && (reply.Page? && !GoesOn(reply, page, total) ==>
            FetchFrom(c, replies, page, acc, total, sent) == Outcome(Added(reply, acc), false, page, sent'))
  {
  }

  /** The loop goes on exactly while `Proceeds` holds, and its error flag
      says whether the last request threw. */
  lemma {:induction false} FetchFromStops(c: Criteria, replies: seq<Reply>, page: nat, acc: seq<Media>, total: Option<int>,
                                           sent: seq<Request>)
    requires 1 <= page <= MaxPages
    requires total == TotalAfter(c, replies, page - 1)
    ensures var r := FetchFrom(c, replies, page, acc, total, sent);
      && (forall k :: page - 1 <= k < r.pages - 1 ==> Proceeds(c, replies, k))
      && !Proceeds(c, replies, r.pages - 1)
      && (r.error <==> Seen(c, replies, r.pages - 1).Thrown?)
    decreases MaxPages - page
  {
    var reply := Seen(c, replies, page - 1);
    FetchFromStep(c, replies, page, acc, total, sent);
    if reply.Page? {
      var total' := TotalNext(reply, total);
      assert total' == TotalAfter(c, replies, page);
      if GoesOn(reply, page, total) {
        assert Proceeds(c, replies, page - 1);
        FetchFromStops(c, replies, page + 1, Added(reply, acc), total', sent + [RequestFor(c, page)]);
      } else {
        assert !Proceeds(c, replies, page - 1);
      }
    }
  }

  /** The loop's titles are everything gathered from the pages it fetched. */
  lemma {:induction false} FetchFromGathers(c: Criteria, replies: seq<Reply>, page: nat, acc: seq<Media>, total: Option<int>,
                                             sent: seq<Request>)
    requires 1 <= page <= MaxPages
    requires acc == Gathered(c, replies, page - 1)
    ensures var r := FetchFrom(c, replies, page, acc, total, sent);
      r.results == Gathered(c, replies, r.pages)
    decreases MaxPages - page
  {
    var reply := Seen(c, replies, page - 1);
    FetchFromStep(c, replies, page, acc, total, sent);
    assert Gathered(c, replies, page) == Added(reply, acc);
    if reply.Page? && GoesOn(reply, page, total) {
      FetchFromGathers(c, replies, page + 1, Added(reply, acc), TotalNext(reply, total), sent + [RequestFor(c, page)]);
    }
  }

  /** The requests the loop sends are the requests for pages 1, 2, ...,
      one per page it asked for. */
  lemma {:induction false} FetchFromSends(c: Criteria, replies: seq<Reply>, page: nat, acc: seq<Media>,
                                          total: Option<int>, sent: seq<Request>)
    requires 1 <= page <= MaxPages
    requires |sent| == page - 1 && forall i :: 0 <= i < |sent| ==> sent[i] == RequestFor(c, i + 1)
    ensures var r := FetchFrom(c, replies, page, acc, total, sent);
      && |r.sent| == r.pages
      && forall i :: 0 <= i < |r.sent| ==> r.sent[i] == RequestFor(c, i + 1)
    decreases MaxPages - page
  {
    var reply := Seen(c, replies, page - 1);
    var sent' := sent + [RequestFor(c, page)];
    FetchFromStep(c, replies, page, acc, total, sent);
    assert forall i :: 0 <= i < |sent'| ==> sent'[i] == RequestFor(c, i + 1);
    if reply.Page? && GoesOn(reply, page, total) {
      FetchFromSends(c, replies, page + 1, Added(reply, acc), TotalNext(reply, total), sent');
    }
  }

  /** The search effect. Without criteria it clears the results and fetches
      nothing. Otherwise it requests pages 1, 2, ... (`RequestFor`), at
      least one and at most ten, going on exactly while `Proceeds` holds;
      it shows the error exactly when the last request threw, and keeps
      the titles with a poster of every page it got, in page order. */
  function Search(c: Criteria, replies: seq<Reply>): (r: Outcome)
    ensures !HasCriteria(c) ==> r == Outcome([], false, 0, [])
    ensures |r.sent| == r.pages
    ensures forall i :: 0 <= i < |r.sent| ==> r.sent[i] == RequestFor(c, i + 1)
    ensures HasCriteria(c) ==>
              && 1 <= r.pages <= MaxPages
              && (forall k :: 0 <= k < r.pages - 1 ==> Proceeds(c, replies, k))
              && !Proceeds(c, replies, r.pages - 1)
              && (r.error <==> Seen(c, replies, r.pages - 1).Thrown?)
              && r.results == Gathered(c, replies, r.pages)
              && (forall i :: 0 <= i < |r.results| ==> HasPoster(r.results[i]))
  {
    if !HasCriteria(c) then Outcome([], false, 0, [])
    else
      FetchFromStops(c, replies, 1, [], Some(1), []);
      FetchFromGathers(c, replies, 1, [], Some(1), []);
      FetchFromSends(c, replies, 1, [], Some(1), []);
      var r := FetchFrom(c, replies, 1, [], Some(1), []);
      GatheredHavePosters(c, replies, r.pages);
      r
  }

  /** A discover page that comes back short ends the search, and so does
      one whose missing total reads as a single page. */
  lemma ShortOrSinglePageStops(c: Criteria, replies: seq<Reply>, k: nat)
    requires c.query == "" && k < |replies| && replies[k].Page?
    requires (replies[k].results.Some? && |replies[k].results.value| < FullPage)
             || replies[k].totalPages.None?
    ensures !Proceeds(c, replies, k)
  {
  }

  /** A keyword search whose reply has a list of results but no total
      stops after that page: `page <= undefined` is false. */
  lemma KeywordMissingTotalStops(c: Criteria, replies: seq<Reply>, k: nat)
    requires c.query != "" && k < |replies| && replies[k].Page?
    requires replies[k].results.Some? && replies[k].totalPages.None?
    ensures !Proceeds(c, replies, k)
  {
  }

  // ---------------------------------------------------------------- title

  /** The heading's type label. */
  function TypeLabel(kind: string): string {
    if kind == "tv" then "Séries" else if kind == "movie" then "Films" else "Films et séries"
  }

  /** The genre as the heading names it: the table's name for the genre
      whose id renders as the criterion (`String(g.id) === String(genre)`),
      else the criterion itself. */
  function GenreName(genre: string): (name: string)
    ensures genre == "" ==> name == ""
  {
    if genre == "" then ""
    else match Find((g: SearchFilters.Genre) => Decimal(g.id) == genre, SearchFilters.Genres)
      case Some(g) => g.name
      case None => genre
  }

  /** The parts of the heading after the type label: the year, the genre
      and the country, each only when set. */
  function FilterParts(c: Criteria): string {
    (if c.year != "" then " de " + c.year else "")
    + (var name := GenreName(c.genre); if name != "" then ", genre " + name else "")
    + (if c.country != "" then ", pays " + c.country else "")
  }

  /** The heading of the results. */
  function Title(c: Criteria): string {
    if c.query != "" then "Résultats pour \"" + c.query + "\""
    else TypeLabel(c.kind) + FilterParts(c)
  }

  /** Without a keyword the heading starts with the type label. */
  lemma FilterTitleStartsWithType(c: Criteria)
    requires c.query == ""
    ensures TypeLabel(c.kind) <= Title(c)
  {
    var typeLabel := TypeLabel(c.kind);
    assert Title(c)[..|typeLabel|] == typeLabel;
  }

  /** A keyword overrides every filter, for the requests and the heading
      alike. */
  lemma KeywordTakesPriority(c: Criteria, kind: string, year: string, genre: string, country: string, page: nat)
    requires c.query != ""
    ensures var d := c.(kind := kind, year := year, genre := genre, country := country);
      && RequestFor(d, page) == RequestFor(c, page) == KeywordSearch(c.query, page)
      && Title(d) == Title(c) == "Résultats pour \"" + c.query + "\""
  {
  }

  /** Selecting a genre of the table names it in the heading. */
  lemma KnownGenreIsNamed(i: nat)
    requires i < |SearchFilters.Genres|
    ensures GenreName(Decimal(SearchFilters.Genres[i].id)) == SearchFilters.Genres[i].name
  {
    var gs := SearchFilters.Genres;
    var genre := Decimal(gs[i].id);
    var p := (g: SearchFilters.Genre) => Decimal(g.id) == genre;
    SearchFilters.TablesAreKeyed();
    var k := FirstIndex(p, gs);
    assert p(gs[i]);
    forall j | 0 <= j < |gs| && j != i ensures !p(gs[j]) {
      DecimalInjective(gs[j].id, gs[i].id);
    }
    assert k == Some(i);
  }

  /** A genre value that no table id renders as is shown as it is. */
  lemma UnknownGenreIsEchoed(genre: string)
    requires genre != ""
    requires forall i :: 0 <= i < |SearchFilters.Genres| ==> Decimal(SearchFilters.Genres[i].id) != genre
    ensures GenreName(genre) == genre
  {
  }

  /** With filters only, the heading is the type label followed by exactly
      the parts of the filters that are set. */
  lemma FilterTitleParts(c: Criteria)
    requires c.query == ""
    ensures c.year == "" && c.genre == "" && c.country == "" ==> Title(c) == TypeLabel(c.kind)
    ensures c.genre == "" && c.country == "" && c.year != "" ==> Title(c) == TypeLabel(c.kind) + " de " + c.year
    ensures c.year == "" && c.genre == "" && c.country != "" ==> Title(c) == TypeLabel(c.kind) + ", pays " + c.country
    ensures c.genre == "" ==>
      Title(c) == TypeLabel(c.kind) + (if c.year != "" then " de " + c.year else "")
                  + (if c.country != "" then ", pays " + c.country else "")
  {
  }

  /** With a genre of the table selected, the heading names it between the
      year part and the country part. */
  lemma KnownGenreTitle(c: Criteria, i: nat)
    requires c.query == "" && i < |SearchFilters.Genres| && c.genre == Decimal(SearchFilters.Genres[i].id)
    ensures Title(c) == TypeLabel(c.kind) + (if c.year != "" then " de " + c.year else "")
                        + (", genre " + SearchFilters.Genres[i].name)
                        + (if c.country != "" then ", pays " + c.country else "")
  {
    var name := SearchFilters.Genres[i].name;
    KnownGenreIsNamed(i);
    SearchFilters.GenreNamesAreSet();
    NamedGenreTitle(c, name);
  }

  /** With a genre value no table id renders as, the heading shows the raw
      value in the genre part. */
  lemma UnknownGenreTitle(c: Criteria)
    requires c.query == "" && c.genre != ""
    requires forall i :: 0 <= i < |SearchFilters.Genres| ==> Decimal(SearchFilters.Genres[i].id) != c.genre
    ensures Title(c) == TypeLabel(c.kind) + (if c.year != "" then " de " + c.year else "")
                        + (", genre " + c.genre)
                        + (if c.country != "" then ", pays " + c.country else "")
  {
    UnknownGenreIsEchoed(c.genre);
    NamedGenreTitle(c, c.genre);
  }

  /** The heading when the genre part shows `name`. */
  lemma NamedGenreTitle(c: Criteria, name: string)
    requires c.query == "" && GenreName(c.genre) == name != ""
    ensures Title(c) == TypeLabel(c.kind) + (if c.year != "" then " de " + c.year else "")
                        + (", genre " + name)
                        + (if c.country != "" then ", pays " + c.country else "")
  {
    var typeLabel := TypeLabel(c.kind);
    var yearPart := if c.year != "" then " de " + c.year else "";
    var genrePart := ", genre " + name;
    var countryPart := if c.country != "" then ", pays " + c.country else "";
    assert FilterParts(c) == yearPart + genrePart + countryPart;
    Regroup(typeLabel, yearPart, genrePart, countryPart);
  }

  lemma Regroup(a: string, b: string, c: string, d: string)
    ensures a + (b + c + d) == a + b + c + d
  {
    assert a + ((b + c) + d) == (a + (b + c)) + d;
    assert a + (b + c) == (a + b) + c;
  }
}
