/** The library screen (components/library-screen.tsx): the genre filter, the sort
    selector's comparators, the grouping by first letter for the list view, and the state
    the three selectors keep. The collection itself comes from the catalogue. */
module LibraryScreen {
  import opened Films
  import opened Sorting
  import opened AsciiText
  import opened FilmViews
  import Catalogue

  /** The genres offered by the filter selector. */
  function Genres(films: seq<Film>): seq<string> {
    FirstOccurrences(films, GenreOf)
  }

  /** The genre list holds every non-empty genre of the collection, once, in the order the
      genres first occur. */
  lemma GenresFacts(films: seq<Film>)
    ensures forall g :: g in Genres(films) <==> g != "" && exists l :: 0 <= l < |films| && films[l].genre == g
    ensures NoRepeats(Genres(films))
    ensures InFirstOccurrenceOrder(Genres(films), films, GenreOf)
  {
    FirstOccurrencesFacts(films, GenreOf);
  }

  /** The filter's test: "all" and the empty selection show every film. */
  predicate Shown(filter: string, f: Film) {
    filter == "all" || filter == "" || f.genre == filter
  }

  /** The films the genre filter lets through, in collection order. */
  function LibraryFilter(films: seq<Film>, filter: string): (r: seq<Film>)
    ensures filter == "all" || filter == "" ==> r == films
    ensures filter != "all" && filter != "" ==> forall f :: f in r <==> f in films && f.genre == filter
    ensures IsSubsequence(r, films)
  {
    Filter(films, f => Shown(filter, f))
  }

  /** The filter keeps each film of the chosen genre as many times as it occurs, and no
      other; "all" and "" keep every film as often as it occurs. */
  lemma LibraryFilterCounts(films: seq<Film>, filter: string)
    ensures forall f :: multiset(LibraryFilter(films, filter))[f]
                     == if Shown(filter, f) then multiset(films)[f] else 0
  {
    FilterCounts(films, f => Shown(filter, f));
  }

  /** Oldest first by the time a film was added. */
  function OldestFirst(a: Film, b: Film): int {
    a.dateAdded - b.dateAdded
  }

  /** The comparator of each sort option; `loc` is the browser's `localeCompare`. */
  function LibraryOrder(opt: SortOption, loc: Comparator<string>): Comparator<Film> {
    match opt
    case Title => (a: Film, b: Film) => loc(a.title, b.title)
    case TitleDesc => (a: Film, b: Film) => loc(b.title, a.title)
    case Year => (a: Film, b: Film) => loc(YearKey(a), YearKey(b))
    case YearDesc => (a: Film, b: Film) => loc(YearKey(b), YearKey(a))
    case GenreOrder => (a: Film, b: Film) => loc(OrDefault(a.genre, ""), OrDefault(b.genre, ""))
    case IdNumber => (a: Film, b: Film) => loc(IdKey(a), IdKey(b))
    case IdNumberDesc => (a: Film, b: Film) => loc(IdKey(b), IdKey(a))
    case DateAdded => Catalogue.NewestFirst
    case DateAddedDesc => OldestFirst
  }

  /** Every option sorts by a consistent comparator when the string order is consistent. */
  lemma LibraryOrderConsistent(opt: SortOption, loc: Comparator<string>)
    requires Consistent(loc)
    ensures Consistent(LibraryOrder(opt, loc))
  {
    var cmp := LibraryOrder(opt, loc);
    match opt {
      case Title => KeyedConsistent(cmp, loc, TitleKey);
      case TitleDesc => SwappedKeyedConsistent(cmp, loc, TitleKey);
      case Year => KeyedConsistent(cmp, loc, YearKey);
      case YearDesc => SwappedKeyedConsistent(cmp, loc, YearKey);
      case GenreOrder => KeyedConsistent(cmp, loc, GenreKey);
      case IdNumber => KeyedConsistent(cmp, loc, IdKey);
      case IdNumberDesc => SwappedKeyedConsistent(cmp, loc, IdKey);
      case DateAdded => Catalogue.NewestFirstConsistent();
      case DateAddedDesc =>
    }
  }

  /** Each descending option is its ascending one with the arguments swapped. */
  lemma LibraryDescendingSwaps(loc: Comparator<string>, a: Film, b: Film)
    ensures LibraryOrder(TitleDesc, loc)(a, b) == LibraryOrder(Title, loc)(b, a)
    ensures LibraryOrder(YearDesc, loc)(a, b) == LibraryOrder(Year, loc)(b, a)
    ensures LibraryOrder(IdNumberDesc, loc)(a, b) == LibraryOrder(IdNumber, loc)(b, a)
    ensures LibraryOrder(DateAddedDesc, loc)(a, b) == LibraryOrder(DateAdded, loc)(b, a)
  {
  }

  /** A film without a year, or without a catalogue number, sorts as if it were "0". */
  lemma LibraryEmptyKeysAreZero(loc: Comparator<string>, a: Film, b: Film)
    ensures a.year == "" ==> LibraryOrder(Year, loc)(a, b) == LibraryOrder(Year, loc)(a.(year := "0"), b)
    ensures a.year == "" ==> LibraryOrder(YearDesc, loc)(b, a) == LibraryOrder(YearDesc, loc)(b, a.(year := "0"))
    ensures a.idNumber == "" ==> LibraryOrder(IdNumber, loc)(a, b) == LibraryOrder(IdNumber, loc)(a.(idNumber := "0"), b)
    ensures a.idNumber == "" ==> LibraryOrder(IdNumberDesc, loc)(b, a) == LibraryOrder(IdNumberDesc, loc)(b, a.(idNumber := "0"))
  {
    if a.year == "" {
      assert YearKey(a) == YearKey(a.(year := "0"));
    }
    if a.idNumber == "" {
      assert IdKey(a) == IdKey(a.(idNumber := "0"));
    }
  }

  /** `sortedAndFilteredFilms`. */
  function LibraryView(films: seq<Film>, filter: string, opt: SortOption, loc: Comparator<string>): seq<Film> {
    Sort(LibraryFilter(films, filter), LibraryOrder(opt, loc))
  }

  /** The screen shows the filtered films, each as often as it is in the collection, in the
      order of the chosen option, and films the option cannot tell apart in collection order. */
  lemma LibraryViewFacts(films: seq<Film>, filter: string, opt: SortOption, loc: Comparator<string>, e: Film)
    requires Consistent(loc)
    ensures multiset(LibraryView(films, filter, opt, loc)) == multiset(LibraryFilter(films, filter))
    ensures Sorted(LibraryView(films, filter, opt, loc), LibraryOrder(opt, loc))
    ensures Ties(LibraryView(films, filter, opt, loc), e, LibraryOrder(opt, loc))
         == Ties(LibraryFilter(films, filter), e, LibraryOrder(opt, loc))
  {
    LibraryOrderConsistent(opt, loc);
    SortSorted(LibraryFilter(films, filter), LibraryOrder(opt, loc));
    SortStable(LibraryFilter(films, filter), e, LibraryOrder(opt, loc));
  }

  /** "Recently Added" puts the newest films first. */
  lemma LibraryNewestFirst(films: seq<Film>, filter: string, loc: Comparator<string>)
    ensures var r := LibraryView(films, filter, DateAdded, loc);
      forall i, j :: 0 <= i < j < |r| ==> r[i].dateAdded >= r[j].dateAdded
  {
    NewestOptionOrdered(LibraryFilter(films, filter), loc, LibraryView(films, filter, DateAdded, loc));
  }

  /** The "dateAdded" option sorts any list newest first. */
  lemma NewestOptionOrdered(s: seq<Film>, loc: Comparator<string>, r: seq<Film>)
    requires r == Sort(s, LibraryOrder(DateAdded, loc))
    ensures forall i, j :: 0 <= i < j < |r| ==> r[i].dateAdded >= r[j].dateAdded
  {
    Catalogue.SortNewestOrdered(s);
  }

  /** Sorting oldest first is a consistent comparator. */
  lemma OldestFirstConsistent()
    ensures Consistent(OldestFirst)
  {
  }

  /** Sorting oldest first leaves no record before an older one. */
  lemma SortOldestOrdered(films: seq<Film>)
    ensures forall i, j :: 0 <= i < j < |Sort(films, OldestFirst)| ==>
              Sort(films, OldestFirst)[i].dateAdded <= Sort(films, OldestFirst)[j].dateAdded
  {
    OldestFirstConsistent();
    SortSorted(films, OldestFirst);
    var s := Sort(films, OldestFirst);
    forall i, j | 0 <= i < j < |s| ensures s[i].dateAdded <= s[j].dateAdded {
      assert OldestFirst(s[i], s[j]) <= 0;
    }
  }

  /** "Oldest Added" puts the oldest films first. */
  lemma LibraryOldestFirst(films: seq<Film>, filter: string, loc: Comparator<string>)
    ensures var r := LibraryView(films, filter, DateAddedDesc, loc);
      forall i, j :: 0 <= i < j < |r| ==> r[i].dateAdded <= r[j].dateAdded
  {
    OldestOptionOrdered(LibraryFilter(films, filter), loc, LibraryView(films, filter, DateAddedDesc, loc));
  }

  /** The "dateAddedDesc" option sorts any list oldest first. */
  lemma OldestOptionOrdered(s: seq<Film>, loc: Comparator<string>, r: seq<Film>)
    requires r == Sort(s, LibraryOrder(DateAddedDesc, loc))
    ensures forall i, j :: 0 <= i < j < |r| ==> r[i].dateAdded <= r[j].dateAdded
  {
    SortOldestOrdered(s);
  }

  // ------------------------------------------------------------- letter groups

  /** The heading a film is listed under: its title's first character, upper-cased. */
  function Initial(f: Film): string {
    if f.title == "" then "" else [UpperChar(f.title[0])]
  }

  /** The test "listed under heading `k`". */
  function UnderHeading(k: string): Film -> bool {
    f => Initial(f) == k
  }

  /** The dictionary the reduce builds: each heading maps to its films in the order met. */
  function Groups(s: seq<Film>): map<string, seq<Film>> {
    if s == [] then map[]
    else
      var g := Groups(s[..|s| - 1]);
      var f := s[|s| - 1];
      var k := Initial(f);
      g[k := (if k in g then g[k] else []) + [f]]
  }

  /** `groupedFilms`: the reduce over the sorted films, as a loop over an accumulator. The
      source reads `title[0]`, which fails on an empty title. */
  method GroupByInitial(sorted: seq<Film>) returns (groups: map<string, seq<Film>>)
    requires forall f :: f in sorted ==> f.title != ""
    ensures groups == Groups(sorted)
  {
    groups := map[];
    var i := 0;
    while i < |sorted|
      invariant 0 <= i <= |sorted|
      invariant groups == Groups(sorted[..i])
    {
      var film := sorted[i];
      var letter := [UpperChar(film.title[0])];
      if letter !in groups {
        groups := groups[letter := []];
      }
      groups := groups[letter := groups[letter] + [film]];
      assert sorted[..i + 1][..i] == sorted[..i];
      i := i + 1;
    }
    assert sorted[..|sorted|] == sorted;
  }

  /** Filtering one more film by heading. */
  lemma UnderHeadingSnoc(p: seq<Film>, f: Film, k: string)
    ensures Filter(p + [f], UnderHeading(k)) == Filter(p, UnderHeading(k)) + (if Initial(f) == k then [f] else [])
  {
    FilterConcat(p, [f], UnderHeading(k));
    assert [f][1..] == [];
  }

  /** Appending one film extends the dictionary and the heading list by that film. */
  lemma GroupsSnoc(p: seq<Film>, f: Film)
    ensures var k := Initial(f);
      && Groups(p + [f]) == Groups(p)[k := (if k in Groups(p) then Groups(p)[k] else []) + [f]]
      && FirstOccurrences(p + [f], Initial)
         == (if k == "" || k in FirstOccurrences(p, Initial) then FirstOccurrences(p, Initial)
             else FirstOccurrences(p, Initial) + [k])
  {
    assert (p + [f])[..|p|] == p;
  }

  /** There is a heading for every first letter of the list and for no other. */
  lemma {:induction false} GroupHeadings(s: seq<Film>)
    ensures forall k :: k in Groups(s) <==> exists l :: 0 <= l < |s| && Initial(s[l]) == k
  {
    if s != [] {
      var p, f := s[..|s| - 1], s[|s| - 1];
      assert s == p + [f];
      assert forall l :: 0 <= l < |p| ==> s[l] == p[l];
      GroupHeadings(p);
      GroupsSnoc(p, f);
    }
  }

  /** One step of the reduce keeps each heading's list equal to the films under it. */
  lemma GroupListStep(p: seq<Film>, f: Film, k: string)
    requires k in Groups(p) ==> Groups(p)[k] == Filter(p, UnderHeading(k))
    requires k !in Groups(p) ==> forall x :: x in p ==> Initial(x) != k
    requires k in Groups(p + [f])
    ensures Groups(p + [f])[k] == Filter(p + [f], UnderHeading(k))
  {
    GroupsSnoc(p, f);
    UnderHeadingSnoc(p, f, k);
    if k !in Groups(p) {
      FilterNone(p, UnderHeading(k));
    }
  }

  /** Each heading's list holds exactly the films under that heading, in sorted order. */
  lemma {:induction false} GroupLists(s: seq<Film>)
    ensures forall k :: k in Groups(s) ==> Groups(s)[k] == Filter(s, UnderHeading(k))
  {
    if s != [] {
      var p, f := s[..|s| - 1], s[|s| - 1];
      assert s == p + [f];
      GroupLists(p);
      GroupHeadings(p);
      forall k | k in Groups(s) ensures Groups(s)[k] == Filter(s, UnderHeading(k)) {
        GroupListStep(p, f, k);
      }
    }
  }

  /** Both facts about the dictionary together. */
  lemma GroupsFacts(s: seq<Film>)
    ensures forall k :: k in Groups(s) <==> exists l :: 0 <= l < |s| && Initial(s[l]) == k
    ensures forall k :: k in Groups(s) ==> Groups(s)[k] == Filter(s, UnderHeading(k))
  {
    GroupHeadings(s);
    GroupLists(s);
  }

  /** Each film is listed under its own heading and under no other. */
  lemma EachFilmInOneGroup(s: seq<Film>, f: Film, k: string)
    requires f in s
    ensures Initial(f) in Groups(s) && f in Groups(s)[Initial(f)]
    ensures k in Groups(s) && f in Groups(s)[k] ==> k == Initial(f)
  {
    GroupsFacts(s);
  }

  /** The sizes of the lists under the headings `ks`. */
  function SizeSum(g: map<string, seq<Film>>, ks: seq<string>): nat {
    if ks == [] then 0
    else SizeSum(g, ks[..|ks| - 1]) + (if ks[|ks| - 1] in g then |g[ks[|ks| - 1]]| else 0)
  }

  /** Changing the list under a heading outside `ks` does not change their sizes. */
  lemma {:induction false} SizeSumOther(g: map<string, seq<Film>>, ks: seq<string>, k: string, v: seq<Film>)
    requires k !in ks
    ensures SizeSum(g[k := v], ks) == SizeSum(g, ks)
  {
    if ks != [] {
      SizeSumOther(g, ks[..|ks| - 1], k, v);
    }
  }

  /** Changing the list under a heading that occurs once in `ks` changes their sizes by the
      difference. */
  lemma {:induction false} SizeSumUpdate(g: map<string, seq<Film>>, ks: seq<string>, k: string, v: seq<Film>)
    requires NoRepeats(ks) && k in ks && k in g
    ensures SizeSum(g[k := v], ks) == SizeSum(g, ks) - |g[k]| + |v|
  {
    var init := ks[..|ks| - 1];
    if ks[|ks| - 1] == k {
      assert k !in init;
      SizeSumOther(g, init, k, v);
    } else {
      assert k in init;
      SizeSumUpdate(g, init, k, v);
    }
  }

  /** A non-empty heading is in the dictionary exactly when it is in the heading list, and
      that list has no repeats. */
  lemma HeadingAgrees(s: seq<Film>, k: string)
    requires k != ""
    ensures NoRepeats(FirstOccurrences(s, Initial))
    ensures k in Groups(s) <==> k in FirstOccurrences(s, Initial)
  {
    GroupHeadings(s);
    FirstOccurrencesFacts(s, Initial);
  }

  /** A film under a heading already in the dictionary adds one to its list's size. */
  lemma SizeStepOld(g: map<string, seq<Film>>, ks: seq<string>, k: string, f: Film)
    requires NoRepeats(ks) && k in ks && k in g
    ensures SizeSum(g[k := g[k] + [f]], ks) == SizeSum(g, ks) + 1
  {
    SizeSumUpdate(g, ks, k, g[k] + [f]);
  }

  /** A film under a new heading adds a list of size one. */
  lemma SizeStepNew(g: map<string, seq<Film>>, ks: seq<string>, k: string, f: Film)
    requires k !in ks
    ensures SizeSum(g[k := [f]], ks + [k]) == SizeSum(g, ks) + 1
  {
    SizeSumOther(g, ks, k, [f]);
    assert (ks + [k])[..|ks|] == ks;
  }

  /** One step of the reduce, for a film with a heading, adds one to the sizes. */
  lemma GroupSizesStep(p: seq<Film>, f: Film)
    requires Initial(f) != ""
    requires SizeSum(Groups(p), FirstOccurrences(p, Initial)) == |p|
    ensures SizeSum(Groups(p + [f]), FirstOccurrences(p + [f], Initial)) == |p| + 1
  {
    GroupsSnoc(p, f);
    HeadingAgrees(p, Initial(f));
    var g, ks := Groups(p), FirstOccurrences(p, Initial);
    var k := Initial(f);
    if k in ks {
      SizeStepOld(g, ks, k, f);
    } else {
      SizeStepNew(g, ks, k, f);
    }
  }

  /** With every title non-empty, the lists under the headings, in first-occurrence order,
      add up to the whole sorted list. */
  lemma {:induction false} GroupSizesAddUp(s: seq<Film>)
    requires forall f :: f in s ==> f.title != ""
    ensures SizeSum(Groups(s), FirstOccurrences(s, Initial)) == |s|
  {
    if s != [] {
      var p, f := s[..|s| - 1], s[|s| - 1];
      assert s == p + [f];
      assert forall x :: x in p ==> x in s;
      GroupSizesAddUp(p);
      GroupSizesStep(p, f);
    }
  }

  // ------------------------------------------------------------- screen state

  /** How the films are laid out. */
  datatype ViewMode = Grid | List

  /** The state of the three selectors. */
  class LibrarySelectors {
    var viewMode: ViewMode
    var sortBy: SortOption
    var filterGenre: string

    /** The screen opens in grid view, sorted by title, unfiltered. */
    constructor()
      ensures viewMode == Grid && sortBy == Title && filterGenre == ""
    {
      viewMode := Grid;
      sortBy := Title;
      filterGenre := "";
    }

    /** Choosing a layout. The effect on `viewMode` runs only when the layout changes, and
        resets the sort to title when it changes to list view. */
    method SetViewMode(mode: ViewMode)
      modifies this
      ensures viewMode == mode && filterGenre == old(filterGenre)
      ensures sortBy == (if mode == List && old(viewMode) != List then Title else old(sortBy))
    {
      if mode != viewMode {
        viewMode := mode;
        if mode == List {
          sortBy := Title;
        }
      }
    }

    /** Choosing a sort option. */
    method SetSortBy(opt: SortOption)
      modifies this
      ensures sortBy == opt && viewMode == old(viewMode) && filterGenre == old(filterGenre)
    {
      sortBy := opt;
    }

    /** Choosing a genre. */
    method SetFilterGenre(genre: string)
      modifies this
      ensures filterGenre == genre && viewMode == old(viewMode) && sortBy == old(sortBy)
    {
      filterGenre := genre;
    }

    /** What the screen lists for the collection `films`. */
    function Listed(films: seq<Film>, loc: Comparator<string>): (r: seq<Film>)
      reads this
      ensures multiset(r) == multiset(LibraryFilter(films, filterGenre))
    {
      LibraryView(films, filterGenre, sortBy, loc)
    }
  }
}
