# cinevault — a verified model of the film-catalogue core

cinevault is a browser application for keeping a personal film collection. This project
models, in Dafny, the parts of it that hold logic rather than layout:

- **the catalogue service** of `lib/use-films.ts` (the `useFilms` hook). It holds the film
  collection, the "last searched" and "last added" lists (at most five records each) and the
  dashboard figures, and writes each change through to local storage. Module `Catalogue`,
  class `FilmCatalogue`.
- **the bulk-import parser** of `components/add-film-screen.tsx`. It turns a pasted block of
  comma-separated lines into film drafts. Module `BulkImport`.
- **the cloud-token lifecycle** of `lib/dropbox-integration.ts`: loading the stored token
  record, the code exchange, the refresh-if-needed decision, the authenticated-client guard and
  logout. Also the two string helpers of the image upload: the sanitised file name and the
  share-link rewrite. Module `DropboxIntegration`, class `AuthStore`.
- **the library and search views** of `components/library-screen.tsx` and
  `components/search-screen.tsx`: the genre filter, the genre lists, the option-driven sort,
  the grouping by initial, and the selector state. Modules `FilmViews` (shared by both
  screens), `LibraryScreen` and `SearchScreen`.
- **the signed-in user** of `app/providers.tsx`: login, logout and the remembered user.
  Module `Session`.

Shared modules:

- `Films` holds the film record, its draft, `filter` and `slice`, and the five demonstration
  records.
- `Sorting` holds the stable sort that JavaScript's `Array.prototype.sort` performs. It is an
  insertion sort over a comparator returning an integer.
- `AsciiText` holds `trim`, case changes, `includes`, first-occurrence `replace`, `split` and
  `join`, and decimal numerals.
- `Wrappers` holds `Option` and `Result`.

Modelling choices:

- Timestamps are integer milliseconds. The source stores `dateAdded` as an ISO date string and
  parses it back with `new Date(...)`.
- Every read of the clock or of `Math.random` is a parameter: the id and the creation time of
  each new record, the time `now` of the stats computation and the token decisions.
- Local storage is a map: from keys to film lists for the catalogue, and an optional record
  for the token slot and for the user slot.
- A cloud provider's answer (the token response) is an input datatype.
- `localeCompare` is a parameter `loc`, required only to be a consistent comparator
  (antisymmetric in sign, transitive).
- The stats and "last added" recomputation is an effect that React runs after every change to
  the collection, so it is its own method, `RecomputeStats`. It **replaces** the "last added"
  list that `addFilm`/`addFilms` have just written; `Catalogue.RecomputeAgreesWithAdd` shows
  that both give the same list when the new records share one creation time no earlier than
  any other record's. A batch whose records span two milliseconds comes back from the
  recomputation newest first, that is, in the reverse of the order `addFilms` wrote.

Where the behaviour is easy to misread, the model follows the code:

- The search screen's filter keeps everything only for `"all"`; an empty filter keeps only
  films with an empty genre. The library screen treats `""` like `"all"`.
- On the search screen the two date options fall into the `default` case and leave the results
  in search order (`SearchScreen.DateOptionsKeepSearchOrder`).
- `refreshTokenIfNeeded` reads the clock twice: once to decide, and once more, after the
  provider answers, to compute the new expiry. These are the parameters `now` and `answeredAt`.
- `addFilms` reads the clock once per draft, so one batch may carry different creation times.
  `AddFilms` takes one date per draft.

## Model

| member | source | states |
|---|---|---|
| Films.Stamp | lib/use-films.ts:224-228 | the new record carries exactly the draft's fields, the supplied id and the supplied creation time |
| Films.Take | lib/use-films.ts:240 | `slice(0, n)` is a prefix of the list whose length is the smaller of `n` and the list's length |
| Films.Filter | lib/use-films.ts:278 | an element is in the result exactly when it is in the list and passes; the result keeps the original order (a subsequence), is the list itself when all pass, and is never longer |
| Films.FilterCounts | lib/use-films.ts:278 | `filter` keeps each passing element as many times as it occurs in the list, and no other element |
| Films.FilterKeepsDistinctIds | lib/use-films.ts:278-289 | filtering a list whose ids are distinct leaves the ids distinct |
| Films.InitialFilmsWellFormed | lib/use-films.ts:7-69 | the demonstration collection has five records with distinct ids, added 2023-01-01 to 2023-01-05 a day apart |
| Sorting.Sort | lib/use-films.ts:213 | sorting rearranges the list: the result has the same elements with the same multiplicities |
| Sorting.InsertSorted | lib/use-films.ts:213 | inserting into a sorted list under a consistent comparator keeps it sorted |
| Sorting.SortSorted | lib/use-films.ts:213 | under a consistent comparator the result is sorted: no element comes before one that the comparator puts first |
| Sorting.SortStable | lib/use-films.ts:213 | the sort is stable: the elements that compare equal to any given one keep their original relative order |
| Sorting.SortOfSorted | components/search-screen.tsx:57-76 | a list that is already sorted is left exactly as it is |
| Catalogue.PrependRecent | lib/use-films.ts:240 | the recent list after adding holds at most five records, the new ones first in input order, and it is a prefix of the new records followed by the old list |
| Catalogue.PrependKeepsDistinctIds | lib/use-films.ts:230 | prepending records whose ids are fresh keeps the collection's ids distinct |
| Catalogue.Without | lib/use-films.ts:278 | a record is kept exactly when it is in the list and has another id; the order is kept; none with that id remains; an absent id changes nothing |
| Catalogue.WithoutCounts | lib/use-films.ts:278 | deletion keeps each record with another id as many times as it occurs, and none with the id |
| Catalogue.WithoutIdempotent | lib/use-films.ts:277-295 | deleting the same id twice is deleting it once |
| Catalogue.SearchResults | lib/use-films.ts:307-310 | a record is a result exactly when it is in the collection and its lower-cased searchable text includes the lower-cased term; results keep collection order |
| Catalogue.SearchResultsCounts | lib/use-films.ts:307-310 | each matching record is a result as many times as it occurs in the collection, and no other record is |
| Catalogue.FieldMatchIsMatch | lib/use-films.ts:308 | a term found in any one searched field — the tags alone included — is a match |
| Catalogue.SearchIgnoresCase | lib/use-films.ts:305-309 | upper-casing the term does not change the outcome of a search, blank terms included |
| Catalogue.FindIndexById | lib/use-films.ts:314 | `findIndex` by id gives the first position holding that id, or -1 when no record holds it |
| Catalogue.DedupFromKept | lib/use-films.ts:314 | each record the deduplication keeps is the record at the first position of its id |
| Catalogue.DedupFromDistinct | lib/use-films.ts:314 | the deduplicated list has no two records with one id |
| Catalogue.DedupFromSubsequence | lib/use-films.ts:314 | the deduplicated list keeps the original order |
| Catalogue.DedupFromKeepsFirsts | lib/use-films.ts:314 | every first record of an id is kept |
| Catalogue.DedupByIdFacts | lib/use-films.ts:313-314 | deduplication by id gives distinct ids, the same set of ids, the original order, and only original records |
| Catalogue.DedupFromKeepsDistinctPrefix | lib/use-films.ts:313-314 | a front part with distinct ids passes the deduplication unchanged |
| Catalogue.MergeRecentFacts | lib/use-films.ts:313-315 | the new recent-search list holds at most five records with distinct ids, each from the results or the old list, it starts with the first five results when their ids are distinct, and it is empty only when both inputs are |
| Catalogue.NewestFirstConsistent | lib/use-films.ts:213 | the newest-first comparator is consistent |
| Catalogue.SortNewestOrdered | lib/use-films.ts:213 | after the newest-first sort no record precedes a newer one |
| Catalogue.LatestFiveNewest | lib/use-films.ts:213-214 | the recomputed "last added" list has min(5, size) records, newest first, all taken from the collection |
| Catalogue.LatestFiveLeavesOutOlder | lib/use-films.ts:213-214 | every record left out of the five is no newer than every record kept |
| Catalogue.NewestFirstStable | lib/use-films.ts:213 | records added at the same moment keep their collection order |
| Catalogue.MaxDate | lib/use-films.ts:201-202 | `Math.max` of the dates is one of the dates and no date exceeds it |
| Catalogue.LatestFiveStartsAtMax | lib/use-films.ts:202-214 | the first record of the recomputed list is a newest one |
| Catalogue.CeilDiv | lib/use-films.ts:205 | `Math.ceil(n / d)` is the least whole number of `d`s that covers `n` |
| Catalogue.ComputeStats | lib/use-films.ts:200-210 | the figures give the collection's size and the number of days, rounded up, between now and the newest record |
| Catalogue.DaysSinceNewest | lib/use-films.ts:204-205 | zero days when the newest record was added now; one day for any gap up to 24 hours |
| Catalogue.SortNewestAfterNewer | lib/use-films.ts:213 | sorting newest first leaves records newer than all others at the front, in their order |
| Catalogue.RecomputeAgreesWithAdd | lib/use-films.ts:197-242 | when the prepended records share one creation time no earlier than any other record's, the recomputed "last added" list equals the one the add operation wrote |
| Catalogue.FilmCatalogue.constructor | lib/use-films.ts:173-191 | start-up adopts the stored collection, or seeds the demonstration records and stores them; a missing derived list stays empty; storage stays in step |
| Catalogue.LatestFiveKeepsDistinctIds | lib/use-films.ts:212-215 | the five newest records of a collection without repeated ids repeat no id |
| Catalogue.FilmCatalogue.AddFilm | lib/use-films.ts:223-248 | the new record goes first, the collection and the recent list are stored, the rest is unchanged; an id fresh to the collection keeps its ids distinct, and an id fresh to the recent list keeps that list's ids distinct |
| Catalogue.FilmCatalogue.AddFilms | lib/use-films.ts:250-275 | the new records go first in input order, then the old collection; the recent list and storage are updated; the rest is unchanged; distinct new ids fresh to the collection keep its ids distinct, and distinct new ids fresh to the recent list keep that list's ids distinct |
| Catalogue.FilmCatalogue.DeleteFilm | lib/use-films.ts:277-302 | every record with the id leaves all three lists and storage; the figures are unchanged |
| Catalogue.FilmCatalogue.SearchFilms | lib/use-films.ts:304-326 | a blank term gives no results and writes nothing; otherwise the caller gets all results and the recent-search list is the merge, stored |
| Catalogue.FilmCatalogue.RecomputeStats | lib/use-films.ts:197-221 | an empty collection changes nothing (the figures go stale); otherwise the figures and the newest five are recomputed and stored, and a collection without repeated ids gives a recent list without repeated ids |
| BulkImport.ParseJoinedLine | components/add-film-screen.tsx:92-101 | a line joined from comma-free pieces maps trimmed piece k to field k, a missing piece to "", and never sets an image |
| BulkImport.ParseLineRoundTrip | components/add-film-screen.tsx:92-101 | a draft without an image whose fields are trimmed and comma-free comes back unchanged from the line listing its fields |
| BulkImport.DraftOfFields | components/add-film-screen.tsx:94-101 | the seven fields in line order map back onto the draft |
| BulkImport.ExtraPiecesIgnored | components/add-film-screen.tsx:92 | anything after the seventh piece is dropped |
| BulkImport.ParseTwoPieces | components/add-film-screen.tsx:94-100 | a two-piece line fills title and director and leaves the other fields "" |
| BulkImport.EmptyTitleAccepted | components/add-film-screen.tsx:94 | a blank first piece gives a draft with an empty title, as `", X"` shows; nothing rejects it |
| BulkImport.ParseSevenPieces | components/add-film-screen.tsx:92-100 | seven comma-free pieces fill the seven fields in order, each trimmed |
| BulkImport.ExampleTrims | components/add-film-screen.tsx:87 | the pieces of the line `A, B, C, Drama, 001, 2000, tag1`, in the format the comment documents, trim to A, B, C, Drama, 001, 2000, tag1 |
| BulkImport.ExampleLine | components/add-film-screen.tsx:87-101 | the line `A, B, C, Drama, 001, 2000, tag1` parses to title A, director B, actors C, genre Drama, number 001, year 2000, tags tag1 |
| BulkImport.CountFiltered | components/add-film-screen.tsx:90 | the blank-line filter keeps as many lines as are not blank |
| BulkImport.ParseBulkLines | components/add-film-screen.tsx:88-103 | one draft per non-blank line, in input order, each the parse of its line |
| BulkImport.ParseJoinedLines | components/add-film-screen.tsx:88-91 | text joined from non-blank lines parses to the drafts of those lines |
| BulkImport.BlankLineIgnored | components/add-film-screen.tsx:90 | a blank line between two others changes nothing |
| AsciiText.TrimIsTrimmed | components/add-film-screen.tsx:92 | `trim` leaves no white space at either end and leaves a trimmed string alone |
| AsciiText.BlankIffAllSpace | lib/use-films.ts:305 | a term is blank exactly when every character is white space |
| AsciiText.ToLowerForgetsCase | lib/use-films.ts:308-309 | lower-casing forgets case: after upper-casing or lower-casing first it gives the same text |
| AsciiText.ContainsIff | lib/use-films.ts:309 | `includes` holds exactly when the pattern occurs at some position |
| AsciiText.ReplaceFirstAt | lib/dropbox-integration.ts:319-320 | `replace` with a string pattern replaces its first occurrence only |
| AsciiText.ReplaceFirstLeading | lib/dropbox-integration.ts:319-320 | when the pattern does not occur before a given position, `replace` rewrites the occurrence there |
| AsciiText.SplitPieces | components/add-film-screen.tsx:89 | `split` gives one more piece than there are separators, none holding a separator |
| AsciiText.JoinSplit | components/add-film-screen.tsx:89 | joining the pieces of a split gives back the text |
| AsciiText.SplitJoin | components/add-film-screen.tsx:92 | splitting separator-free pieces joined by the separator gives back the pieces |
| AsciiText.SplitConcat | components/add-film-screen.tsx:89 | splitting at a separator splits the two sides separately |
| AsciiText.NatToString | lib/dropbox-integration.ts:297 | a timestamp's numeral is a non-empty run of digits |
| AsciiText.ParseNatToString | lib/dropbox-integration.ts:297 | reading the numeral back gives the number |
| DropboxIntegration.LoadAuthState | lib/dropbox-integration.ts:44-57 | the saved record, or the signed-out record when nothing is saved |
| DropboxIntegration.ExchangeResult | lib/dropbox-integration.ts:64-80 | a granted exchange gives an authenticated record with the provider's tokens and an expiry of now plus the lifetime in seconds times 1000; a failed one gives nothing |
| DropboxIntegration.Refresh | lib/dropbox-integration.ts:84-115 | the provider is asked exactly when there is a refresh token and the stored token is not fresh; a granted answer is stored and returned; a refused one returns nothing and stores nothing |
| DropboxIntegration.ClientFor | lib/dropbox-integration.ts:118-124 | a client only for a non-empty token, otherwise the "Not authenticated with Dropbox" error |
| DropboxIntegration.RefreshNeedsRefreshToken | lib/dropbox-integration.ts:87-89 | without authentication or a refresh token there is no token, no request, and the client guard fails |
| DropboxIntegration.RefreshKeepsFreshToken | lib/dropbox-integration.ts:92-94 | the stored token is returned without a request exactly when the expiry is set and more than 300000 ms away; at the boundary or without an expiry a refresh is requested |
| DropboxIntegration.RefreshGranted | lib/dropbox-integration.ts:97-110 | a granted refresh stores an authenticated record with the new token, the new refresh token or else the old one, and the new expiry, and returns the new token |
| DropboxIntegration.RefreshRefused | lib/dropbox-integration.ts:111-122 | a refused refresh returns nothing, stores nothing, and the client guard raises the not-authenticated error |
| DropboxIntegration.ExchangeAuthenticates | lib/dropbox-integration.ts:68-76 | after a granted exchange the authenticated check holds exactly when the access token is non-empty |
| DropboxIntegration.SignedOutIsUnauthenticated | lib/dropbox-integration.ts:44-57 | nothing stored and the signed-out record read the same, are not authenticated and yield no token |
| DropboxIntegration.AuthStore.constructor | lib/dropbox-integration.ts:44-49 | the slot holds what was stored |
| DropboxIntegration.AuthStore.IsDropboxAuthenticated | lib/dropbox-integration.ts:330-333 | authenticated exactly when the loaded record says so and its access token is non-empty |
| DropboxIntegration.AuthStore.HandleOAuthCallback | lib/dropbox-integration.ts:60-81 | true exactly for a granted exchange, which is stored; false leaves the slot as it was |
| DropboxIntegration.AuthStore.RefreshTokenIfNeeded | lib/dropbox-integration.ts:84-115 | returns the token and the request decision `Refresh` gives, and saves only the record it writes |
| DropboxIntegration.AuthStore.GetAuthenticatedClient | lib/dropbox-integration.ts:118-124 | the client guard applied to the refresh result, with the same saved record |
| DropboxIntegration.AuthStore.LogoutFromDropbox | lib/dropbox-integration.ts:336-343 | the slot holds the signed-out record and the authenticated check is false |
| DropboxIntegration.SanitizeFileNameFacts | lib/dropbox-integration.ts:297 | the sanitised name has the original length, keeps letters, digits and dots in place, and has "_" everywhere else |
| DropboxIntegration.SanitizeFileNameIdempotent | lib/dropbox-integration.ts:297 | sanitising twice is sanitising once, and no "/" survives |
| DropboxIntegration.ImagePathFacts | lib/dropbox-integration.ts:297-298 | the path is the images folder, the timestamp's digits, "_" and the sanitised name; the file name has no "/" and its leading digits read back as the timestamp |
| DropboxIntegration.DirectLinkUnchanged | lib/dropbox-integration.ts:318-320 | a link holding neither the sharing host nor "?dl=0" is left unchanged |
| DropboxIntegration.DirectLinkOfSharedLink | lib/dropbox-integration.ts:318-320 | a shared link gets the direct-download host in place of the first sharing host, and loses the "?dl=0" at its end |
| FilmViews.OrDefault | components/library-screen.tsx:54 | the or-default of a text is the text when it is non-empty, else the default |
| FilmViews.KeyedConsistent | components/library-screen.tsx:50-60 | comparing one key of each film by a consistent string order is consistent |
| FilmViews.SwappedKeyedConsistent | components/library-screen.tsx:52-62 | so is comparing the keys in swapped order |
| FilmViews.FirstOccurrencesMembers | components/library-screen.tsx:42 | the set built from the genres holds exactly the non-empty ones |
| FilmViews.FirstOccurrencesNoRepeats | components/library-screen.tsx:42 | the set holds each genre once |
| FilmViews.FirstOccurrencesOrder | components/library-screen.tsx:42 | the set lists the genres in the order they first occur |
| FilmViews.FirstOccurrencesFacts | components/library-screen.tsx:42 | the three facts above together |
| LibraryScreen.GenresFacts | components/library-screen.tsx:42 | the genre list holds every non-empty genre of the collection, once each, in order of first occurrence |
| LibraryScreen.LibraryFilter | components/library-screen.tsx:46 | "all" or "" keeps every film; for any other value a film is kept exactly when it has that genre; order is kept |
| LibraryScreen.LibraryFilterCounts | components/library-screen.tsx:46 | each film the filter shows is kept as many times as it occurs, and no other film |
| LibraryScreen.LibraryOrderConsistent | components/library-screen.tsx:47-70 | every sort option compares by a consistent comparator |
| LibraryScreen.LibraryDescendingSwaps | components/library-screen.tsx:50-66 | each descending option is its ascending one with the arguments swapped |
| LibraryScreen.LibraryEmptyKeysAreZero | components/library-screen.tsx:53-62 | an empty year or catalogue number sorts as "0" |
| LibraryScreen.LibraryViewFacts | components/library-screen.tsx:45-70 | the view is a permutation of the filtered films, sorted by the option, and films the option ties keep collection order |
| LibraryScreen.LibraryNewestFirst | components/library-screen.tsx:63-64 | "dateAdded" lists newest first |
| LibraryScreen.OldestFirstConsistent | components/library-screen.tsx:65-66 | the oldest-first comparator is consistent |
| LibraryScreen.SortOldestOrdered | components/library-screen.tsx:65-66 | after the oldest-first sort no record precedes an older one |
| LibraryScreen.LibraryOldestFirst | components/library-screen.tsx:65-66 | "dateAddedDesc" lists oldest first |
| LibraryScreen.OldestOptionOrdered | components/library-screen.tsx:65-66 | the "dateAddedDesc" comparator sorts any list oldest first |
| LibraryScreen.NewestOptionOrdered | components/library-screen.tsx:63-64 | the "dateAdded" comparator sorts any list newest first |
| LibraryScreen.GroupByInitial | components/library-screen.tsx:73-80 | the reduce over films with non-empty titles builds exactly the grouping `Groups` defines |
| LibraryScreen.GroupHeadings | components/library-screen.tsx:74-77 | the headings are exactly the upper-cased initials of the films |
| LibraryScreen.GroupLists | components/library-screen.tsx:75-78 | each heading lists its films in the sorted order |
| LibraryScreen.GroupsFacts | components/library-screen.tsx:73-80 | the headings and the lists together |
| LibraryScreen.EachFilmInOneGroup | components/library-screen.tsx:73-80 | every film is under its own initial's heading and under no other |
| LibraryScreen.GroupSizesAddUp | components/library-screen.tsx:73-80 | for non-empty titles the group sizes add up to the number of films |
| LibraryScreen.LibrarySelectors.constructor | components/library-screen.tsx:29-31 | the screen opens in grid view, sorted by title, with no genre filter |
| LibraryScreen.LibrarySelectors.SetViewMode | components/library-screen.tsx:35-39 | switching from grid to list view resets the sort to title; choosing the view already shown, or grid view, keeps the sort |
| LibraryScreen.LibrarySelectors.SetSortBy | components/library-screen.tsx:30 | only the sort changes |
| LibraryScreen.LibrarySelectors.SetFilterGenre | components/library-screen.tsx:31 | only the filter changes |
| LibraryScreen.LibrarySelectors.Listed | components/library-screen.tsx:45-70 | the listed films are the filtered collection, each as often as it occurs |
| SearchScreen.SearchFilter | components/search-screen.tsx:56 | only "all" keeps every result; for any other value, "" included, a result is kept exactly when it has that genre; order is kept |
| SearchScreen.SearchFilterCounts | components/search-screen.tsx:56 | each result the filter shows is kept as many times as it was found, and no other |
| SearchScreen.SearchOrderConsistent | components/search-screen.tsx:57-76 | every sort option compares by a consistent comparator |
| SearchScreen.SearchKeyFacts | components/search-screen.tsx:59-72 | descending options swap the arguments; an empty year or number sorts as "0" |
| SearchScreen.SearchViewFacts | components/search-screen.tsx:55-76 | the view is a permutation of the filtered results, sorted by the option, with ties in search order |
| SearchScreen.UnorderedSortKeepsOrder | components/search-screen.tsx:73-74 | a comparator that ties every pair leaves the list in its order |
| SearchScreen.DateOptionsKeepSearchOrder | components/search-screen.tsx:73-74 | both date options keep the filtered results in search order |
| SearchScreen.GenreOptionsFacts | components/search-screen.tsx:142 | the genre options are the distinct non-empty genres of the results, in order of first occurrence |
| SearchScreen.SearchForm.constructor | components/search-screen.tsx:32-36 | the form opens with no term and no results, showing all genres, sorted by title |
| SearchScreen.SearchForm.SetSearchTerm | components/search-screen.tsx:32 | only the term changes |
| SearchScreen.SearchForm.SetFilterGenre | components/search-screen.tsx:36 | only the filter changes |
| SearchScreen.SearchForm.SetSortBy | components/search-screen.tsx:35 | only the sort changes |
| SearchScreen.SearchForm.HandleSearch | components/search-screen.tsx:40-47 | the catalogue's search outcome for the term replaces the results; the filter returns to "all" and the sort to title; the catalogue's recent-search list and storage change exactly as its search writes them, and its collection, "last added" list and figures stay as they were |
| SearchScreen.SearchForm.Listed | components/search-screen.tsx:55-76 | the listed results are the filtered results, each as often as it was found |
| SearchScreen.ListedAfterSearch | components/search-screen.tsx:43-46 | right after a search every result is listed, sorted by title |
| Session.Login | app/providers.tsx:31-38 | the user is signed in under the given name; the user is remembered only when asked |
| Session.Logout | app/providers.tsx:40-43 | nobody is signed in and nobody is remembered |
| Session.Initialised | app/providers.tsx:21-29 | start-up adopts the remembered user, otherwise nobody is signed in |
| Session.LoginIgnoresPassword | app/providers.tsx:31-34 | the password makes no difference |
| Session.LogoutIdempotent | app/providers.tsx:40-43 | logging out twice is logging out once, whatever came before |
| Session.ReloadScenarios | app/providers.tsx:21-43 | a remembered login survives a reload; after logout it does not; an unremembered login leaves the reload to the earlier remembered user |
| Session.Provider.constructor | app/providers.tsx:21-29 | mounting takes on the state `Initialised` gives |
| Session.Provider.LogIn | app/providers.tsx:31-38 | the new state is `Login` of the old one |
| Session.Provider.LogOut | app/providers.tsx:40-43 | the new state is `Logout` of the old one |

## Left out

- Rendering, routing and the pages and components that only call the core are not modelled.
  These include the login guards, `router.push`, the film modal and the cards.
- The SDK calls are not modelled: `filesUpload`, `filesDownload`, `filesGetMetadata`,
  `filesCreateFolderV2`, `sharingCreateSharedLinkWithSettings`, the token request itself and
  `getAuthUrl`. Their outcomes are inputs: a `TokenResponse` for the token requests, and the
  shared URL for the link rewrite.
- The cloud loads and saves of the catalogue are not modelled. In `lib/use-films.ts:72-102`
  the hook's own `isDropboxAuthenticated` always answers false, so those branches never run;
  the model is the hook with cloud sync off.
- Async ordering and concurrent writes are not modelled. Each operation is one atomic step.
- `Date.now()`, `new Date()` and `Math.random()` are parameters. Id freshness is a
  hypothesis of the distinct-ids clauses of `AddFilm` and `AddFilms`, not a theorem: two calls in one millisecond
  give the same id.
- Date strings are integer milliseconds, and the day count uses integer ceiling division.
  Floating-point division is not modelled.
- `localeCompare` is an abstract consistent comparator. Nothing is claimed about browser
  collation.
- JSON `stringify`/`parse` is not modelled. A stored value is the value itself, and the round
  trip is taken as given.
- The `typeof window` checks are not modelled; a browser is always present.
- `trim`, `toLowerCase` and `toUpperCase` are ASCII-only. Unicode white space and case
  mappings that change length are not modelled.
- The display order of the letter groups is not claimed. `Object.entries` puts
  integer-like keys first; the model proves the contents of the groups only.
- The template download and image drag-and-drop of the add screen are not modelled; they are
  browser APIs.
- `initialFilms` is modelled field by field; only its ids, count and dates are stated.
- BulkImport.ExampleLine: states the example on the line written as the join of its seven
  pieces, rather than on the literal text, which is the same string.
- LibraryScreen.GroupByInitial: requires non-empty titles, because `title[0].toUpperCase()`
  throws on an empty title. The throw is reachable: the grouping runs on every render, grid
  view included, and a bulk line such as `", X"` adds a film with an empty title
  (`BulkImport.EmptyTitleAccepted`).
- LibraryScreen.GroupByInitial: keys on the first character of the title. The source keys on
  the first UTF-16 code unit, so titles starting with two different characters outside the
  Basic Multilingual Plane (two emoji, say) share one heading there but get two here.
- LibraryScreen.Initial: the same difference; for a title starting outside the Basic
  Multilingual Plane the source's heading is a lone surrogate, the model's the whole character.
- DropboxIntegration.SanitizeFileNameFacts: a character outside the Basic Multilingual Plane
  counts as one character here, so it becomes one "_". The source's pattern has no `u` flag
  and matches UTF-16 code units, so such a character becomes "__" and the name grows by one.
  The length clause holds for names inside the Basic Multilingual Plane only.
- DropboxIntegration.SanitizeFileName: the same difference, for the function itself.
- DropboxIntegration.ImagePathFacts: its length clause counts characters, so it too holds in
  UTF-16 code units only for names inside the Basic Multilingual Plane.
- Strings are sequences of characters, not of UTF-16 code units. Only the members named in
  the lines above index or match a string by position in a way where the difference shows.
