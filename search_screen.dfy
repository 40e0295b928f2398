/** The search screen (components/search-screen.tsx): the genre filter and sort applied to
    the latest results, the genre options drawn from those results, and the state a
    submitted search resets. The search itself is the catalogue's. */
module SearchScreen {
  import opened Films
  import opened Sorting
  import opened FilmViews
  import Catalogue
  import AsciiText

  /** The filter's test: only "all" shows every result; any other value, the empty one
      included, asks for that exact genre. */
  predicate Shown(filter: string, f: Film) {
    filter == "all" || f.genre == filter
  }

  /** The results the genre filter lets through, in search order. */
  function SearchFilter(results: seq<Film>, filter: string): (r: seq<Film>)
    ensures filter == "all" ==> r == results
    ensures filter != "all" ==> forall f :: f in r <==> f in results && f.genre == filter
    ensures IsSubsequence(r, results)
  {
    Filter(results, f => Shown(filter, f))
  }

  /** The filter keeps each result it shows as many times as it was found, and no other. */
  lemma SearchFilterCounts(results: seq<Film>, filter: string)
    ensures forall f :: multiset(SearchFilter(results, filter))[f]
                     == if Shown(filter, f) then multiset(results)[f] else 0
  {
    FilterCounts(results, f => Shown(filter, f));
  }

  /** The comparator of each sort option; the two date options fall to the default case and
      compare every pair as equal. */
  function SearchOrder(opt: SortOption, loc: Comparator<string>): Comparator<Film> {
    match opt
    case Title => (a: Film, b: Film) => loc(a.title, b.title)
    case TitleDesc => (a: Film, b: Film) => loc(b.title, a.title)
    case Year => (a: Film, b: Film) => loc(YearKey(a), YearKey(b))
    case YearDesc => (a: Film, b: Film) => loc(YearKey(b), YearKey(a))
    case GenreOrder => (a: Film, b: Film) => loc(OrDefault(a.genre, ""), OrDefault(b.genre, ""))
    case IdNumber => (a: Film, b: Film) => loc(IdKey(a), IdKey(b))
    case IdNumberDesc => (a: Film, b: Film) => loc(IdKey(b), IdKey(a))
    case _ => (a: Film, b: Film) => 0
  }

  /** Every option sorts by a consistent comparator when the string order is consistent. */
  lemma SearchOrderConsistent(opt: SortOption, loc: Comparator<string>)
    requires Consistent(loc)
    ensures Consistent(SearchOrder(opt, loc))
  {
    var cmp := SearchOrder(opt, loc);
    match opt {
      case Title => KeyedConsistent(cmp, loc, TitleKey);
      case TitleDesc => SwappedKeyedConsistent(cmp, loc, TitleKey);
      case Year => KeyedConsistent(cmp, loc, YearKey);
      case YearDesc => SwappedKeyedConsistent(cmp, loc, YearKey);
      case GenreOrder => KeyedConsistent(cmp, loc, GenreKey);
      case IdNumber => KeyedConsistent(cmp, loc, IdKey);
      case IdNumberDesc => SwappedKeyedConsistent(cmp, loc, IdKey);
      case _ =>
    }
  }

  /** Each descending option is its ascending one with the arguments swapped, and a result
      without a year or a catalogue number sorts as if it were "0". */
  lemma SearchKeyFacts(loc: Comparator<string>, a: Film, b: Film)
    ensures SearchOrder(TitleDesc, loc)(a, b) == SearchOrder(Title, loc)(b, a)
    ensures SearchOrder(YearDesc, loc)(a, b) == SearchOrder(Year, loc)(b, a)
    ensures SearchOrder(IdNumberDesc, loc)(a, b) == SearchOrder(IdNumber, loc)(b, a)
    ensures a.year == "" ==> SearchOrder(Year, loc)(a, b) == SearchOrder(Year, loc)(a.(year := "0"), b)
    ensures a.idNumber == "" ==> SearchOrder(IdNumber, loc)(a, b) == SearchOrder(IdNumber, loc)(a.(idNumber := "0"), b)
  {
    if a.year == "" {
      assert YearKey(a) == YearKey(a.(year := "0"));
    }
    if a.idNumber == "" {
      assert IdKey(a) == IdKey(a.(idNumber := "0"));
    }
  }

  /** `filteredAndSortedResults`. */
  function SearchView(results: seq<Film>, filter: string, opt: SortOption, loc: Comparator<string>): seq<Film> {
    Sort(SearchFilter(results, filter), SearchOrder(opt, loc))
  }

  /** The screen shows the filtered results, each as often as it was found, in the order of
      the chosen option, with results the option cannot tell apart in search order. */
  lemma SearchViewFacts(results: seq<Film>, filter: string, opt: SortOption, loc: Comparator<string>, e: Film)
    requires Consistent(loc)
    ensures multiset(SearchView(results, filter, opt, loc)) == multiset(SearchFilter(results, filter))
    ensures Sorted(SearchView(results, filter, opt, loc), SearchOrder(opt, loc))
    ensures Ties(SearchView(results, filter, opt, loc), e, SearchOrder(opt, loc))
         == Ties(SearchFilter(results, filter), e, SearchOrder(opt, loc))
  {
    SearchOrderConsistent(opt, loc);
    SortSorted(SearchFilter(results, filter), SearchOrder(opt, loc));
    SortStable(SearchFilter(results, filter), e, SearchOrder(opt, loc));
  }

  /** A comparator that calls every pair equal leaves the sequence as it is. */
  lemma UnorderedSortKeepsOrder(s: seq<Film>, cmp: Comparator<Film>)
    requires forall a, b :: cmp(a, b) == 0
    ensures Sort(s, cmp) == s
  {
    SortOfSorted(s, cmp);
  }

  /** Under either date option the filtered results keep their search order. */
  lemma DateOptionsKeepSearchOrder(results: seq<Film>, filter: string, loc: Comparator<string>)
    ensures SearchView(results, filter, DateAdded, loc) == SearchFilter(results, filter)
    ensures SearchView(results, filter, DateAddedDesc, loc) == SearchFilter(results, filter)
  {
    var r := SearchFilter(results, filter);
    assert forall a, b :: SearchOrder(DateAdded, loc)(a, b) == 0;
    UnorderedSortKeepsOrder(r, SearchOrder(DateAdded, loc));
    assert forall a, b :: SearchOrder(DateAddedDesc, loc)(a, b) == 0;
    UnorderedSortKeepsOrder(r, SearchOrder(DateAddedDesc, loc));
  }

  /** The genre options: the distinct non-empty genres of the current results. */
  function GenreOptions(results: seq<Film>): seq<string> {
    FirstOccurrences(results, GenreOf)
  }

  /** The options hold every non-empty genre among the results, once, in the order the
      genres first occur. */
  lemma GenreOptionsFacts(results: seq<Film>)
    ensures forall g :: g in GenreOptions(results) <==> g != "" && exists l :: 0 <= l < |results| && results[l].genre == g
    ensures NoRepeats(GenreOptions(results))
    ensures InFirstOccurrenceOrder(GenreOptions(results), results, GenreOf)
  {
    FirstOccurrencesFacts(results, GenreOf);
  }

  /** The state of the search form and its selectors. */
  class SearchForm {
    var searchTerm: string
    var results: seq<Film>
    var filterGenre: string
    var sortBy: SortOption

    /** The screen opens empty, showing all genres, sorted by title. */
    constructor()
      ensures searchTerm == "" && results == [] && filterGenre == "all" && sortBy == Title
    {
      searchTerm := "";
      results := [];
      filterGenre := "all";
      sortBy := Title;
    }

    /** Typing into the search box. */
    method SetSearchTerm(term: string)
      modifies this
      ensures searchTerm == term && results == old(results)
      ensures filterGenre == old(filterGenre) && sortBy == old(sortBy)
    {
      searchTerm := term;
    }

    /** Choosing a genre. */
    method SetFilterGenre(genre: string)
      modifies this
      ensures filterGenre == genre && searchTerm == old(searchTerm)
      ensures results == old(results) && sortBy == old(sortBy)
    {
      filterGenre := genre;
    }

    /** Choosing a sort option. */
    method SetSortBy(opt: SortOption)
      modifies this
      ensures sortBy == opt && searchTerm == old(searchTerm)
      ensures results == old(results) && filterGenre == old(filterGenre)
    {
      sortBy := opt;
    }

    /** `handleSearch`: the catalogue's search for the current term replaces the results,
        and the filter and the sort go back to "all" and title. */
    method HandleSearch(catalogue: Catalogue.FilmCatalogue)
      requires catalogue.Valid()
      modifies this, catalogue
      ensures catalogue.Valid()
      ensures results == Catalogue.SearchOutcome(old(catalogue.films), old(searchTerm))
      ensures catalogue.films == old(catalogue.films)
      ensures catalogue.lastAdded == old(catalogue.lastAdded) && catalogue.stats == old(catalogue.stats)
      ensures AsciiText.IsBlank(old(searchTerm)) ==>
                catalogue.lastSearched == old(catalogue.lastSearched) && catalogue.storage == old(catalogue.storage)
      ensures !AsciiText.IsBlank(old(searchTerm)) ==>
                && catalogue.lastSearched == Catalogue.MergeRecent(results, old(catalogue.lastSearched))
                && catalogue.storage == old(catalogue.storage)[Catalogue.LastSearchedKey := catalogue.lastSearched]
      ensures filterGenre == "all" && sortBy == Title && searchTerm == old(searchTerm)
    {
      var found := catalogue.SearchFilms(searchTerm);
      results := found;
      filterGenre := "all";
      sortBy := Title;
    }

    /** What the screen lists. */
    function Listed(loc: Comparator<string>): (r: seq<Film>)
      reads this
      ensures multiset(r) == multiset(SearchFilter(results, filterGenre))
    {
      SearchView(results, filterGenre, sortBy, loc)
    }
  }

  /** Right after a search every result is listed, in title order. */
  lemma ListedAfterSearch(results: seq<Film>, loc: Comparator<string>)
    requires Consistent(loc)
    ensures multiset(SearchView(results, "all", Title, loc)) == multiset(results)
    ensures Sorted(SearchView(results, "all", Title, loc), SearchOrder(Title, loc))
  {
    SearchOrderConsistent(Title, loc);
    SortSorted(results, SearchOrder(Title, loc));
  }
}
