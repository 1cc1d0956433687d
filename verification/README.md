# cinetech catalogue front end, modelled in Dafny

cinetech is a React front end for a film and series catalogue built on a
metadata provider. Most of it is markup. The model covers the deterministic
state transitions inside its event handlers and effects. Browser storage is
a plain value. Each fetched page is an element of a given finite sequence
of replies.

- **Accounts**: the login page's account registry. It covers `saveUser`,
  `findUser` and the register/login `handleSubmit`.
- **CommentStore**: the details page's comment list. It covers add, delete
  and edit (each guarded by the session user), the top-level form with its
  required rating, and the reply box with its blank-text guard.
- **CommentForm**: the reusable comment section. It covers the star fill
  rule, submit validation and the owner-only edit payload.
- **Threads**: how the details page lays out its discussion. The provider
  reviews come first, then the users' own top-level comments, each with the
  replies that answer its author. The module also covers trailer selection.
- **Favourites**: the star toggle of the details page and the newest-first
  favourites page.
- **Pagination**: the five-page window and the previous/next buttons.
- **PopularFeed**: the movies and series grids. They fetch pages until 24
  titles with a poster are in. The series card mapping is here too.
- **SearchResults**: the results page. It covers the criteria read from the
  query string, the no-criteria guard, the discover request, the loop of at
  most ten pages and the heading.
- **Header**: the keyword search threshold, the filter hand-off as a query
  string, the logged-in check, logout and the filter-panel toggle.
- **SearchFilters**: the year list, the genre and country tables, and the
  change, apply and reset handlers.
- **Slider**: the home carousel. It covers previous/next/go-to modulo the
  ring size, the offset of a slide from the active one, and the stacking
  tier each offset gets.
- **Filmography**: a person's credits, filtered to those with a poster,
  with their media type inferred.
- **Basics**, **Media** and **QueryString** hold the shared pieces:
  - an optional value;
  - `filter`, `find` and `findIndex`;
  - JavaScript's `trim` whitespace;
  - decimal rendering of ids;
  - the catalogue record and its poster filter;
  - query strings as ordered key/value lists.

Each fetch loop has three forms:

- a reference definition, stated through the predicate that says when the
  loop asks for another page (`PopularFeed.Load`, `SearchResults.Search`);
- a definition shaped like the source loop (`PopularFeed.Fill`,
  `SearchResults.FetchFrom`);
- for the grids, the loop itself as a method (`PopularFeed.LoadLoop`).

Lemmas connect the three. A request past the end of the given replies fails
like a fetch that throws.

## Model

| member | source | states |
|---|---|---|
| Accounts.FindUser | cinetech/src/pages/Login.jsx:96-99 | None exactly when no stored account has the username; otherwise a stored account with that username with none before it, i.e. the first match |
| Accounts.SaveUser | cinetech/src/pages/Login.jsx:89-93 | exactly one account `{username, password}` is appended at the end and every existing record stays in place |
| Accounts.RegistrationError | cinetech/src/pages/Login.jsx:128-139 | an empty field is reported iff one is empty; a mismatch only when all fields are filled and the passwords differ; registration is accepted iff all fields are filled, the passwords agree and no stored account has the username |
| Accounts.Submit | cinetech/src/pages/Login.jsx:104-150 | a failed login shows the error and leaves storage unchanged; a successful one stores the session user with the typed name and password and sets the pseudonym; a refused registration changes no storage; an accepted one appends the account, leaves the session alone, sets the pseudonym and switches to login mode with every field cleared |
| Accounts.ToggleMode | cinetech/src/pages/Login.jsx:243 | the mode flips, both messages are cleared and the typed fields stay |
| Accounts.SubmitKeepsNamesUnique | cinetech/src/pages/Login.jsx:136-141 | if no two stored accounts share a username before a submit, none do after it |
| Accounts.LoginOutcome | cinetech/src/pages/Login.jsx:111-120 | a login either leaves storage unchanged or opens a session on a stored account equal to the typed credentials |
| Accounts.RegisterThenLogin | cinetech/src/pages/Login.jsx:89-99 | after registering (u, p), logging in with (u, p) succeeds and with any other password fails |
| Accounts.EmptyFieldReportedFirst | cinetech/src/pages/Login.jsx:128-139 | a registration with any empty field is refused with the fill-all-fields message whatever the stored accounts, passwords or username, and nothing is stored |
| CommentStore.NewComment | cinetech/src/pages/Details.jsx:62-71 | the author is the session username and never the passed name; a rating is kept iff the comment is not a reply and the rating is non-zero; the reply marks are set iff it is a reply naming a target |
| CommentStore.AddComment | cinetech/src/pages/Details.jsx:54-75 | without a session user the list is unchanged; otherwise exactly one comment is put in front and the others follow in their order |
| CommentStore.DeleteComment | cinetech/src/pages/Details.jsx:88-94 | the entry at `idx` is removed, with the rest kept in order, iff it exists and the session user wrote it; otherwise the list is unchanged |
| CommentStore.Merge | cinetech/src/pages/Details.jsx:114 | every field present in the patch overwrites, every absent one keeps the comment's value |
| CommentStore.EditComment | cinetech/src/pages/Details.jsx:108-114 | the length and every entry other than `idx` stay; entry `idx` is merged with the patch iff the session user wrote it |
| CommentStore.SubmitTopLevel | cinetech/src/pages/Details.jsx:420-435 | a rating of 0 raises the alert and adds nothing; a rated comment is put in front with that rating and the session author, and the star selection returns to 0 |
| CommentStore.ToggleReplyBox | cinetech/src/pages/Details.jsx:656-664 | the button sets the open index to its own unless that index is already open, which it clears; the typed text is cleared |
| CommentStore.SendReply | cinetech/src/pages/Details.jsx:727-737 | a text blank after trimming adds nothing and leaves the box; otherwise one unrated reply to the entry's author is put in front and the box closes |
| CommentStore.ToggleReplyBoxTwice | cinetech/src/pages/Details.jsx:656-664 | pressing the same reply button twice comes back to the starting box |
| CommentStore.DeleteSparesOthersComments | cinetech/src/pages/Details.jsx:92 | a delete of someone else's comment leaves the list unchanged |
| CommentStore.AddThenDelete | cinetech/src/pages/Details.jsx:54-101 | adding a comment and deleting entry 0 as its author restores the list |
| CommentForm.FilledStarsFormPrefix | cinetech/src/components/CommentSection.jsx:10 | star k is lit iff k is at most the hovered star (or the rating when nothing is hovered), so lit stars form a prefix of 1..5 |
| CommentForm.FilledCount | cinetech/src/components/CommentSection.jsx:9-10 | the number of lit stars is between 0 and 5, and star k is lit iff k is at most that number |
| CommentForm.Submit | cinetech/src/components/CommentSection.jsx:43-57 | no user gives the sign-in error and submits nothing; then a rating of 0 gives the rating error; otherwise the session username is the author, the text and rating are passed on, and the form resets |
| CommentForm.SubmittedCommentIsRated | cinetech/src/components/CommentSection.jsx:53 | on the path the details page does not render: a submission the form lets through is stored in front as a rated comment of the session user |
| CommentForm.StartEdit | cinetech/src/components/CommentSection.jsx:177-181 | edit mode opens on the entry, loaded with its current text and rating |
| CommentForm.PickEditStar | cinetech/src/components/CommentSection.jsx:149 | a star click sets the edit rating and nothing else |
| CommentForm.EditPayloadReplacesOnlyTextAndRating | cinetech/src/components/CommentSection.jsx:142 | merging the edit payload changes exactly the text and the rating of the comment |
| CommentForm.SaveEdit | cinetech/src/components/CommentSection.jsx:139-145 | edit mode always ends; a payload is sent iff the user owns the comment, and it changes only text and rating |
| CommentForm.CancelEdit | cinetech/src/components/CommentSection.jsx:158 | edit mode ends and the edit fields stay |
| CommentForm.OwnerEditRoundTrip | cinetech/src/components/CommentSection.jsx:124-145 | on the path the details page does not render: an owner's edit saved through the store changes exactly the text and rating of that entry and nothing else in the list |
| Threads.ReviewEntries | cinetech/src/pages/Details.jsx:517-530 | one entry per review, in order, authored by the review's author and without replies |
| Threads.MainIndices | cinetech/src/pages/Details.jsx:534-553 | only positions of comments not marked as replies, strictly increasing |
| Threads.MainIndicesComplete | cinetech/src/pages/Details.jsx:550-552 | every comment not marked as a reply has its position listed |
| Threads.MainEntries | cinetech/src/pages/Details.jsx:535-553 | each user entry is a stored non-reply comment shown as itself, in increasing stored order, without replies |
| Threads.MainEntriesComplete | cinetech/src/pages/Details.jsx:550-552 | every stored non-reply comment has its entry |
| Threads.TopLevelReviewsFirst | cinetech/src/pages/Details.jsx:516-531 | the top level starts with the first (at most five) reviews, in order |
| Threads.TopLevelUserEntries | cinetech/src/pages/Details.jsx:533-556 | after the reviews come only stored non-reply comments, in increasing stored order |
| Threads.TopLevelTail | cinetech/src/pages/Details.jsx:555-556 | past the reviews the top level is exactly the user entries |
| Threads.TopLevelComplete | cinetech/src/pages/Details.jsx:550-556 | every stored non-reply comment appears at the top level |
| Threads.ParentOf | cinetech/src/pages/Details.jsx:560-576 | a comment has a parent only if it is a reply naming a target, and then the parent is the first entry whose author is the target; a reply whose target authors no entry has none |
| Threads.FirstAuthorIndex | cinetech/src/pages/Details.jsx:575 | searching the entries by author finds the position the author list gives |
| Threads.AttachOneMatchesParent | cinetech/src/pages/Details.jsx:560-578 | attaching one reply changes no author or origin and adds the reply to exactly its parent entry |
| Threads.AttachAllKeepsTop | cinetech/src/pages/Details.jsx:559-580 | the reply pass keeps the top level's length, authors and origins |
| Threads.AttachAllStep | cinetech/src/pages/Details.jsx:559-580 | one more stored comment adds to an entry exactly what the reference definition adds |
| Threads.AttachAllMatchesReference | cinetech/src/pages/Details.jsx:559-580 | after the reply pass, entry k holds exactly the stored comments whose parent is k, in stored order |
| Threads.ThreadShape | cinetech/src/pages/Details.jsx:514-580 | the displayed discussion is the top level, unchanged, with each entry carrying exactly the replies whose parent it is |
| Threads.RepliesOfMembership | cinetech/src/pages/Details.jsx:574-578 | a stored comment is listed under entry k iff k is its parent |
| Threads.OrphanReplyDropped | cinetech/src/pages/Details.jsx:575-578 | a reply whose target authors no top-level entry is shown nowhere |
| Threads.Trailer | cinetech/src/pages/Details.jsx:361-362 | the first YouTube trailer or teaser when there is one, else the first YouTube video, else none |
| Favourites.Toggle | cinetech/src/pages/Details.jsx:191-216 | without a session user or details nothing changes; a present title is unstarred and the list becomes the one with every matching entry removed (no entry of the title left, every other entry kept); an absent one is appended with the route's type and starred |
| Favourites.Unstarred | cinetech/src/pages/Details.jsx:206 | each entry of the title occurs zero times afterwards and every other entry as many times as before |
| Favourites.UnstarredAppend | cinetech/src/pages/Details.jsx:206 | removal distributes over concatenation, so the kept entries stay in their order |
| Favourites.UnstarredSingle | cinetech/src/pages/Details.jsx:206 | a single entry is removed exactly when it is the displayed title |
| Favourites.ToggleTwiceRestores | cinetech/src/pages/Details.jsx:202-211 | starring an absent title and unstarring it restores the list |
| Favourites.Displayed | cinetech/src/pages/Favoris.jsx:9-25 | the page shows the stored list, or the empty list for a missing key, in reverse order |
| Favourites.MissingKeyShowsEmpty | cinetech/src/pages/Favoris.jsx:9-22 | a missing key shows the empty message and no card |
| Favourites.NewestFavouriteShownFirst | cinetech/src/pages/Favoris.jsx:25 | the title starred last is the first the page shows |
| Media.WithPosters | cinetech/src/pages/Movies.jsx:30 | the poster filter keeps only titles with a poster and never lengthens the list |
| Media.WithPostersMembers | cinetech/src/pages/Movies.jsx:30 | a title is in the filtered list exactly when it is in the list and has a poster |
| Media.WithPostersSingle | cinetech/src/pages/Movies.jsx:30 | a single title survives exactly when it has a poster |
| Media.WithPostersAppend | cinetech/src/pages/Movies.jsx:31 | filtering concatenated pages is concatenating the filtered pages |
| Pagination.Window | cinetech/src/components/Pagination.jsx:1-13 | for a non-negative total the window has min(5, total) pages; they are consecutive and lie in [1, total]; and it contains the current page when that is in range |
| Pagination.WindowOffset | cinetech/src/components/Pagination.jsx:11-13 | each page of the window is the first page plus its position |
| Pagination.WindowStrictlyIncreasing | cinetech/src/components/Pagination.jsx:11-13 | window pages strictly increase |
| Pagination.WindowCentred | cinetech/src/components/Pagination.jsx:4-5 | away from both ends the window is the current page and two on each side |
| Pagination.PreviousRequest | cinetech/src/components/Pagination.jsx:18-19 | disabled iff on page 1, otherwise asks for the page before |
| Pagination.NextRequest | cinetech/src/components/Pagination.jsx:37-38 | disabled iff on the last page, otherwise asks for the page after |
| PopularFeed.TakeIsPrefix | cinetech/src/pages/Movies.jsx:41 | `slice(0, 24)` is the prefix of length min(24, length) |
| PopularFeed.PagesAreConsecutive | cinetech/src/pages/Movies.jsx:24-36 | the pages requested are the selected page and the ones after it |
| PopularFeed.GatheredHavePosters | cinetech/src/pages/Movies.jsx:30-31 | everything accumulated has a poster |
| PopularFeed.RunFrom | cinetech/src/pages/Movies.jsx:27-40 | the run ends after the first reply at which the loop does not go on; it throws iff that reply is a failed fetch |
| PopularFeed.Load | cinetech/src/pages/Movies.jsx:23-43 | the API pages requested are consecutive from the selected page; fetching goes on exactly while the last reply is a non-final page with results and fewer than 24 titles are in; the error shows iff the last fetch threw; otherwise the first 24 poster titles gathered are shown, in fetch order; the total comes only from API page 1 |
| PopularFeed.ShownBounds | cinetech/src/pages/Movies.jsx:27-41 | at most 24 titles are shown, all with a poster, and exactly 24 whenever the fetched pages offered that many |
| PopularFeed.TotalOnlyFromFirstPage | cinetech/src/pages/Series.jsx:30-32 | a load from a page after 1 keeps the total; a load from page 1 takes the total that page reports |
| PopularFeed.FillIsRunFrom | cinetech/src/pages/Movies.jsx:27-40 | the loop as written, resumed at any turn with what it has gathered, ends where the reference run ends |
| PopularFeed.FillMatchesLoad | cinetech/src/pages/Series.jsx:25-39 | the loop as written leaves the outcome the reference load describes |
| PopularFeed.LoadLoop | cinetech/src/pages/Movies.jsx:23-41 | the effect's `while` loop, with its three exits, computes what the loop-shaped definition computes |
| PopularFeed.SeriesCard | cinetech/src/pages/Series.jsx:57-61 | the series name becomes the title and the first air date the release date; every other field is unchanged |
| QueryString.Get | cinetech/src/pages/SearchResults.jsx:25-29 | None iff no pair has the key; otherwise the value of the first pair with it |
| QueryString.AppendIfSet | cinetech/src/components/Header.jsx:34-37 | an empty value appends nothing; a set one appends one pair at the end |
| QueryString.GetAfterAppend | cinetech/src/components/Header.jsx:33-37 | an append leaves keys already present reading as before and makes a new key read as the appended value |
| Header.HandleSearch | cinetech/src/components/Header.jsx:19-23 | navigation happens iff the query has more than one character, to a results page whose `q` reads back as the query |
| Header.HandleFilterSearch | cinetech/src/components/Header.jsx:26-39 | all-empty filters open the movies page; otherwise the results page with one to four parameters, all non-empty |
| Header.FilterParamReadsBack | cinetech/src/components/Header.jsx:33-37 | each of type, year, genre and country reads back as its filter when set and is absent otherwise; no other key is present |
| Header.FilterSearchRoundTrip | cinetech/src/components/Header.jsx:33-38 | the results page reads the filters back exactly as reported, with no keyword |
| Header.KeywordSearchRoundTrip | cinetech/src/components/Header.jsx:21 | the results page reads a keyword search as that keyword and no filter |
| Header.Logout | cinetech/src/components/Header.jsx:51-57 | the session user and the pseudonym are removed, the accounts stay, and the login page opens |
| Header.LogoutThenLogin | cinetech/src/components/Header.jsx:51-57 | after logout, a login with stored credentials signs in again |
| Header.ToggleFilters | cinetech/src/components/Header.jsx:93 | the panel's visibility flips |
| Header.ToggleFiltersTwice | cinetech/src/components/Header.jsx:93 | two toggles restore the visibility |
| SearchFilters.Years | cinetech/src/components/SearchFilters.jsx:10 | 76 entries, entry i being 2025 - i |
| SearchFilters.YearsSpan | cinetech/src/components/SearchFilters.jsx:10 | the years run from 2025 down to 1950 in steps of one, and each year of that range is offered |
| SearchFilters.TablesAreKeyed | cinetech/src/components/SearchFilters.jsx:13-38 | genre ids are pairwise distinct and country codes are pairwise distinct |
| SearchFilters.GenreNamesAreSet | cinetech/src/components/SearchFilters.jsx:13-38 | every genre of the table has a non-empty name |
| SearchFilters.ChangeType | cinetech/src/components/SearchFilters.jsx:52-54 | only the type selection changes |
| SearchFilters.ChangeYear | cinetech/src/components/SearchFilters.jsx:55-57 | only the year selection changes |
| SearchFilters.ChangeGenre | cinetech/src/components/SearchFilters.jsx:58-60 | only the genre selection changes |
| SearchFilters.ChangeCountry | cinetech/src/components/SearchFilters.jsx:61-63 | only the country selection changes |
| SearchFilters.HandlersAreIndependent | cinetech/src/components/SearchFilters.jsx:52-63 | changes of different selections commute, and the four changes set exactly the four selections |
| SearchFilters.Apply | cinetech/src/components/SearchFilters.jsx:66-68 | with a listener, exactly the four current selections are reported |
| SearchFilters.Reset | cinetech/src/components/SearchFilters.jsx:70-76 | all four selections are cleared and, with a listener, the all-empty selection is reported |
| SearchFilters.ApplyAfterReset | cinetech/src/components/SearchFilters.jsx:66-76 | an apply right after a reset reports what the reset reported |
| SearchFilters.Render | cinetech/src/components/SearchFilters.jsx:78 | nothing is rendered iff the panel is not visible |
| SearchResults.ReadCriteria | cinetech/src/pages/SearchResults.jsx:25-29 | each criterion is its parameter's value, or "" when absent |
| SearchResults.DiscoverRequest | cinetech/src/pages/SearchResults.jsx:73-84 | a discover request whose first parameter is the page |
| SearchResults.ReadBackThroughAppends | cinetech/src/pages/SearchResults.jsx:76-83 | each conditional append adds its key only when the value is set and leaves the other keys reading as before |
| SearchResults.DiscoverRequestReadsBack | cinetech/src/pages/SearchResults.jsx:74-84 | type `tv` gives the series endpoint and any other type the movie endpoint; the page, the type's year key, the genre and the country read back as set, and no other key is present |
| SearchResults.DiscoverParamsOrdered | cinetech/src/pages/SearchResults.jsx:74-84 | parameters come in the order page, year, genre, country |
| SearchResults.RequestFor | cinetech/src/pages/SearchResults.jsx:60-84 | a keyword, when set, decides the request alone; otherwise the discover request |
| SearchResults.Normalise | cinetech/src/pages/SearchResults.jsx:89 | a missing result list reads as empty and a missing or zero total as one page; present values are kept |
| SearchResults.GatheredHavePosters | cinetech/src/pages/SearchResults.jsx:93-96 | every result gathered has a poster |
| SearchResults.FetchFrom | cinetech/src/pages/SearchResults.jsx:57-101 | the loop from a page stops at that page or later, and never past page 10 |
| SearchResults.FetchFromStep | cinetech/src/pages/SearchResults.jsx:57-101 | a thrown fetch ends the loop with the error; a reply ends it, or leads to the next page, as the `while` test says |
| SearchResults.FetchFromStops | cinetech/src/pages/SearchResults.jsx:92-101 | the loop goes on exactly while a page came back full with the next page within both the total and ten; the error flag says whether the last request threw |
| SearchResults.FetchFromGathers | cinetech/src/pages/SearchResults.jsx:93-96 | the results are the poster titles of every page fetched, in page order |
| SearchResults.Search | cinetech/src/pages/SearchResults.jsx:40-108 | without criteria the results are cleared and nothing is fetched; otherwise 1 to 10 pages are requested, going on exactly while the loop test holds; the error shows iff the last request threw; the results are the poster titles of every page fetched, in page order, kept even after a throw; the requests sent are those for pages 1 to the last page asked for, in order |
| SearchResults.FetchFromSends | cinetech/src/pages/SearchResults.jsx:57-84 | turn by turn the loop sends the requests for pages 1, 2, ..., one for each page it asks for, each a keyword search or a discover request as the criteria dictate |
| SearchResults.ShortOrSinglePageStops | cinetech/src/pages/SearchResults.jsx:89-101 | a discover page with fewer than 20 results, or a missing total, ends the search |
| SearchResults.KeywordMissingTotalStops | cinetech/src/pages/SearchResults.jsx:96-101 | a keyword reply with a result list but no total ends the search |
| SearchResults.GenreName | cinetech/src/pages/SearchResults.jsx:131-135 | an empty genre names nothing |
| SearchResults.FilterTitleStartsWithType | cinetech/src/pages/SearchResults.jsx:129-138 | without a keyword the heading starts with the type label |
| SearchResults.KeywordTakesPriority | cinetech/src/pages/SearchResults.jsx:60-126 | with a keyword, changing the filters changes neither the requests nor the heading |
| SearchResults.KnownGenreIsNamed | cinetech/src/pages/SearchResults.jsx:133-134 | a genre id of the table is named by the table |
| SearchResults.UnknownGenreIsEchoed | cinetech/src/pages/SearchResults.jsx:133-134 | a genre no table id renders as is shown as it is |
| SearchResults.FilterTitleParts | cinetech/src/pages/SearchResults.jsx:128-138 | with filters only and no genre, the heading is the type label, then the year part when a year is set, then the country part when a country is set |
| SearchResults.KnownGenreTitle | cinetech/src/pages/SearchResults.jsx:128-138 | with a genre of the table, the heading is the type label, the year part when set, `, genre` and the table's name, and the country part when set |
| SearchResults.UnknownGenreTitle | cinetech/src/pages/SearchResults.jsx:128-138 | with a genre value no table id renders as, the genre part shows that raw value between the year and country parts |
| SearchResults.NamedGenreTitle | cinetech/src/pages/SearchResults.jsx:135-138 | whenever the genre resolves to a non-empty name, the heading puts that name between the year and country parts |
| Basics.DecimalInjective | cinetech/src/pages/SearchResults.jsx:133 | two ids render to the same decimal string iff they are equal |
| Slider.JsRem | cinetech/src/components/Slider.jsx:81-82 | JavaScript's remainder agrees with the Euclidean one on non-negative dividends, is non-positive and above minus the divisor on negative ones, and always differs from the dividend by a multiple of the divisor |
| Slider.Initial | cinetech/src/components/Slider.jsx:62-63 | the carousel starts empty and valid |
| Slider.Load | cinetech/src/components/Slider.jsx:74-75 | at most the first twelve results are loaded and the active index returns to 0; a reply without results changes nothing |
| Slider.Next | cinetech/src/components/Slider.jsx:82 | on a non-empty ring the index moves one step forward, from the last slide back to the first; an empty ring leaves NaN |
| Slider.Prev | cinetech/src/components/Slider.jsx:81 | on a non-empty ring the index moves one step back, from the first slide to the last; an empty ring leaves NaN |
| Slider.GoTo | cinetech/src/components/Slider.jsx:80 | the clicked slide becomes active |
| Slider.ButtonsKeepValid | cinetech/src/components/Slider.jsx:81-82 | on a non-empty ring, previous and next keep the index in range |
| Slider.PrevUndoesNext | cinetech/src/components/Slider.jsx:81-82 | previous and next undo each other |
| Slider.NextTimesAdvances | cinetech/src/components/Slider.jsx:82 | m presses of next move the index m steps modulo the ring size |
| Slider.FullTurnRestores | cinetech/src/components/Slider.jsx:82 | one press per slide brings the ring back |
| Slider.Offset | cinetech/src/components/Slider.jsx:10-12 | the offset lies in [-n/2, n/2], differs from idx - active by a multiple of n, and is 0 iff the slide is the active one |
| Slider.OffsetInjective | cinetech/src/components/Slider.jsx:10-12 | different slides get different offsets |
| Slider.TierAt | cinetech/src/components/Slider.jsx:21-58 | z-index 3 iff the offset is 0; the slide receives clicks iff the offset is at most 2 away; the z-index is between 0 and 3 |
| Slider.TierFallsWithDistance | cinetech/src/components/Slider.jsx:21-58 | the z-index never rises with distance and is 3 minus the distance within two steps |
| Slider.TabIndex | cinetech/src/components/Slider.jsx:99 | 0 iff the slide is active, -1 otherwise |
| Slider.FrontSlideIsTheActiveOne | cinetech/src/components/Slider.jsx:97-100 | a slide is drawn in front iff it is active iff it is focusable iff it is not hidden from assistive technology |
| Filmography.LoadCredits | cinetech/src/pages/PersonFilmography.jsx:38-39 | a missing cast reads as the empty list; a failed request keeps the previous credits |
| Filmography.MediaType | cinetech/src/pages/PersonFilmography.jsx:88 | a non-empty media type is kept; otherwise `tv` iff the credit has a first air date, else `movie` |
| Filmography.Card | cinetech/src/pages/PersonFilmography.jsx:85-89 | only the media type of the credit changes |
| Filmography.Shown | cinetech/src/pages/PersonFilmography.jsx:80-89 | at most one card per credit, and every card has a poster and a media type |
| Filmography.ShownEmpty | cinetech/src/pages/PersonFilmography.jsx:80-89 | no credits give an empty grid |
| Filmography.ShownCons | cinetech/src/pages/PersonFilmography.jsx:80-89 | the first credit contributes its card exactly when it has a poster, followed by the grid of the rest |
| Filmography.ShownIsPosteredCredits | cinetech/src/pages/PersonFilmography.jsx:80-81 | every credit with a poster has its card in the grid |
| Filmography.ShownAppend | cinetech/src/pages/PersonFilmography.jsx:80-89 | the grid keeps credit order across concatenation |
| Filmography.MissingCastShowsNothing | cinetech/src/pages/PersonFilmography.jsx:39 | a missing cast shows no card |

## Left out

- cinetech/src/services/tmdb.js and cinetech/src/hook/useAuth.js are not
  part of this model. They are HTTP wrappers and a network auth client. The
  fetched data is an input sequence of replies instead.
- StarryBackground.jsx: a canvas animation driven by random numbers and
  floating-point motion.
- The carousel's trigonometric transform, window-width radius, scale and
  opacity (Slider.jsx:14-20 and the style values). These are floating point
  and presentation. Only the integer offset, the z-index and whether the
  slide receives clicks are kept. `SLIDES_VISIBLE` is unused in the source.
- Date and time formatting of comments and reviews, and the review rating
  conversion `Math.round(rating / 2)`. They are locale-dependent and
  floating point. The date and time of a new comment are parameters.
- localStorage, JSON (de)serialisation, `storage` events and `alert`.
  Storage is a value, and a missing key reads as the empty list.
- Asynchrony and React rendering:
  - the `isMounted` cancellation is treated as always mounted;
  - the loading spinner and the 500 ms delayed navigation after login are
    left out;
  - a fetch past the given replies fails like a thrown fetch.
- URL encoding (`encodeURIComponent`, `URLSearchParams.toString`). Query
  strings are ordered, already decoded key/value lists, and the discover
  URL is a path plus ordered parameters.
- Presentational files: Footer, Home, App, FilterIcon, FavoriteButton,
  SearchBar, MovieCard, LastAddedTable, the Tailwind configuration, and
  PrivateRoute. PrivateRoute's presence check is the same as
  `Header.LoggedIn`.
- PopularFeed.Load: `page` and `total_pages` are integers, so a missing
  `total_pages` (which makes `page >= total_pages` false in JavaScript) is
  not modelled. After a fetch error the source keeps the previous grid in
  state but shows only the error message; the model's `shown` is None.
- PopularFeed.LoadLoop: the source loop is unbounded if the provider never
  reports a last page. The model's finite replies end it by a thrown fetch.
- Header.HandleSearch: lengths are counted in characters, whereas
  JavaScript counts UTF-16 code units. They differ only for characters
  outside the Basic Multilingual Plane.
- Header.LoggedIn: this is the presence of the stored session user. The
  event-listener refresh is not modelled.
- Accounts.Submit: a stored `users` value that fails to parse is not
  modelled; a missing key is the empty list.
- Favourites.Toggle: the `isFavorite` flag the details page sets on load
  (Details.jsx:179-185) is the same `IsFavourite` test. It is not a
  separate member.
- The comment section component is imported by the details page
  (Details.jsx:9) but never rendered, so the details page's
  `handleEditComment` (Details.jsx:108) has no caller. The CommentForm
  members, including CommentForm.OwnerEditRoundTrip and
  CommentForm.SubmittedCommentIsRated, describe a path the application as
  written does not take.
- The search bar takes no props (SearchBar.jsx:3), so the `onSearch`
  handler the header passes it (Header.jsx:98) is never called and
  `handleSearch` (Header.jsx:19-23) is unreachable. Header.HandleSearch
  models that handler as written.
- The reply button is rendered on replies too, with the reply's position
  among its siblings (Details.jsx:815), and that index shares the single
  open-box state with the top-level positions (Details.jsx:821). One open
  index can therefore show a reply box under several entries at once.
  CommentStore.ToggleReplyBox models the index, not which entries display
  the box.
