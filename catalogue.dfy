/** The catalogue service of lib/use-films.ts (the `useFilms` hook) with cloud sync off:
    the film collection, the two derived lists `lastSearched` and `lastAdded`, and the
    dashboard figures, each change written through to local storage. */
module Catalogue {
  import opened Films
  import opened AsciiText
  import opened Sorting

  /** The local-storage keys the service writes. */
  const FilmsKey: string := "films"
  const LastSearchedKey: string := "lastSearched"
  const LastAddedKey: string := "lastAdded"

  // ---------------------------------------------------------------- adding

  /** The records `addFilms` builds: the i-th draft with the i-th id and creation time. */
  function StampAll(drafts: seq<FilmDraft>, ids: seq<string>, dates: seq<int>): seq<Film>
    requires |ids| == |drafts| && |dates| == |drafts|
  {
    seq(|drafts|, i requires 0 <= i < |drafts| => Stamp(drafts[i], ids[i], dates[i]))
  }

  /** `[...added, ...recent].slice(0, 5)`, what both add operations store as the recent list:
      at most five records, the new ones in front, nothing that was in neither list. */
  function PrependRecent(added: seq<Film>, recent: seq<Film>): (r: seq<Film>)
    ensures |r| == if |added| + |recent| <= RecentLimit then |added| + |recent| else RecentLimit
    ensures |added| <= RecentLimit ==> r[..|added|] == added
    ensures |added| >= RecentLimit ==> r == added[..RecentLimit]
    ensures forall f :: f in r ==> f in added || f in recent
    ensures r <= added + recent
  {
    var r := Take(added + recent, RecentLimit);
    assert forall f :: f in r ==> f in added + recent;
    r
  }

  /** Records stamped with ids that `films` does not hold carry no id of `films`. */
  lemma FreshIdsUnseen(added: seq<Film>, ids: seq<string>, films: seq<Film>)
    requires |added| == |ids| && forall k :: 0 <= k < |added| ==> added[k].id == ids[k]
    requires forall k :: 0 <= k < |ids| ==> ids[k] !in Ids(films)
    ensures forall f :: f in added ==> f.id !in Ids(films)
  {
    forall f | f in added ensures f.id !in Ids(films) {
      var k :| 0 <= k < |added| && added[k] == f;
      assert f.id == ids[k];
    }
  }

  /** New records with ids unseen in the collection keep its ids distinct. */
  lemma PrependKeepsDistinctIds(added: seq<Film>, films: seq<Film>)
    requires DistinctIds(added) && DistinctIds(films)
    requires forall f :: f in added ==> f.id !in Ids(films)
    ensures DistinctIds(added + films)
  {
    var s := added + films;
    forall i, j | 0 <= i < j < |s| ensures s[i].id != s[j].id {
      if i < |added| && j >= |added| {
        assert s[i] in added && s[j] == films[j - |added|];
        assert s[j] in films;
      }
    }
  }

  // -------------------------------------------------------------- deleting

  /** `s.filter(f => f.id !== id)`: every record with that id gone, the others kept in order,
      and nothing changed when no record has it. */
  function Without(s: seq<Film>, id: string): (r: seq<Film>)
    ensures forall f :: f in r <==> f in s && f.id != id
    ensures id !in Ids(r)
    ensures IsSubsequence(r, s)
    ensures id !in Ids(s) ==> r == s
  {
    Filter(s, (f: Film) => f.id != id)
  }

  /** Deletion keeps every other record as many times as it occurs, and none with the id. */
  lemma WithoutCounts(s: seq<Film>, id: string)
    ensures forall f :: multiset(Without(s, id))[f] == if f.id != id then multiset(s)[f] else 0
  {
    FilterCounts(s, (f: Film) => f.id != id);
  }

  /** Deleting twice is deleting once. */
  lemma WithoutIdempotent(s: seq<Film>, id: string)
    ensures Without(Without(s, id), id) == Without(s, id)
  {
  }

  // ------------------------------------------------------------- searching

  /** The text a search looks in: title, director, actors, genre and tags, space separated. */
  function SearchableText(f: Film): string {
    f.title + " " + f.director + " " + f.actors + " " + f.genre + " " + f.tags
  }

  /** The lower-cased searchable text includes the lower-cased term. */
  predicate Matches(f: Film, term: string) {
    Contains(ToLower(SearchableText(f)), ToLower(term))
  }

  /** The films of the collection the term matches. */
  function SearchResults(films: seq<Film>, term: string): (r: seq<Film>)
    ensures forall f :: f in r <==> f in films && Matches(f, term)
    ensures IsSubsequence(r, films)
  {
    Filter(films, (f: Film) => Matches(f, term))
  }

  /** A search keeps every matching record as many times as it occurs, and no other. */
  lemma SearchResultsCounts(films: seq<Film>, term: string)
    ensures forall f :: multiset(SearchResults(films, term))[f] == if Matches(f, term) then multiset(films)[f] else 0
  {
    FilterCounts(films, (f: Film) => Matches(f, term));
  }

  /** What a search hands back: nothing for a blank term, otherwise every match. */
  function SearchOutcome(films: seq<Film>, term: string): seq<Film> {
    if IsBlank(term) then [] else SearchResults(films, term)
  }

  /** A lower-cased text that includes `t` still does once anything is added on either side. */
  lemma Grow(x: string, y: string, t: string)
    requires Contains(ToLower(x), t)
    ensures Contains(ToLower(x + y), t) && Contains(ToLower(y + x), t)
  {
    ToLowerConcat(x, y);
    ToLowerConcat(y, x);
    ContainsExtendRight(ToLower(x), ToLower(y), t);
    ContainsExtendLeft(ToLower(y), ToLower(x), t);
  }

  /** A term found in the title, director, actors, genre or tags alone is a match. */
  lemma FieldMatchIsMatch(f: Film, term: string)
    requires Contains(ToLower(f.title), ToLower(term)) || Contains(ToLower(f.director), ToLower(term))
          || Contains(ToLower(f.actors), ToLower(term)) || Contains(ToLower(f.genre), ToLower(term))
          || Contains(ToLower(f.tags), ToLower(term))
    ensures Matches(f, term)
  {
    var t, sp := ToLower(term), " ";
    var x1 := f.title + sp;
    var x2 := x1 + f.director;
    var x3 := x2 + sp;
    var x4 := x3 + f.actors;
    var x5 := x4 + sp;
    var x6 := x5 + f.genre;
    var x7 := x6 + sp;
    assert SearchableText(f) == x7 + f.tags;
    if Contains(ToLower(f.tags), t) {
      Grow(f.tags, x7, t);
    } else {
      if Contains(ToLower(f.genre), t) {
        Grow(f.genre, x5, t);
      } else {
        if Contains(ToLower(f.actors), t) {
          Grow(f.actors, x3, t);
        } else {
          if Contains(ToLower(f.director), t) {
            Grow(f.director, x1, t);
          } else {
            Grow(f.title, sp, t);
            Grow(x1, f.director, t);
          }
          Grow(x2, sp, t);
          Grow(x3, f.actors, t);
        }
        Grow(x4, sp, t);
        Grow(x5, f.genre, t);
      }
      Grow(x6, sp, t);
      Grow(x7, f.tags, t);
    }
  }

  /** Upper-casing a letter does not change whether a character is white space. */
  lemma UpperKeepsSpace(s: string)
    ensures IsBlank(ToUpper(s)) == IsBlank(s)
  {
    BlankIffAllSpace(s);
    BlankIffAllSpace(ToUpper(s));
    forall i | 0 <= i < |s| ensures IsSpace(ToUpper(s)[i]) == IsSpace(s[i]) {
      CaseKeepsSpace(s[i]);
    }
  }

  /** Searching ignores case: an upper-cased term finds exactly what the term finds. */
  lemma SearchIgnoresCase(films: seq<Film>, term: string)
    ensures SearchOutcome(films, ToUpper(term)) == SearchOutcome(films, term)
  {
    UpperKeepsSpace(term);
    ToLowerForgetsCase(term);
    FilterCongruent(films, (f: Film) => Matches(f, ToUpper(term)), (f: Film) => Matches(f, term));
  }

  // ------------------------------------------------- deduplicating by id

  /** `s.findIndex(f => f.id === id)`: the first position holding that id, or -1. */
  function FindIndexById(s: seq<Film>, id: string): (i: int)
    ensures -1 <= i < |s|
    ensures i >= 0 ==> s[i].id == id
    ensures forall j :: 0 <= j < |s| && (i < 0 || j < i) ==> s[j].id != id
  {
    if s == [] then -1
    else if s[0].id == id then 0
    else
      var k := FindIndexById(s[1..], id);
      if k < 0 then -1 else k + 1
  }

  /** From position `i` on, the records `s.filter((f, i, self) => self.findIndex(g => g.id === f.id) === i)`
      keeps: those that are the first of their id. */
  function DedupFrom(s: seq<Film>, i: nat): seq<Film>
    requires i <= |s|
    decreases |s| - i
  {
    if i == |s| then []
    else (if FindIndexById(s, s[i].id) == i then [s[i]] else []) + DedupFrom(s, i + 1)
  }

  /** The first record of each id, in order. */
  function DedupById(s: seq<Film>): seq<Film> {
    DedupFrom(s, 0)
  }

  /** What `DedupFrom(s, i)` keeps lies in `s[i..]` and is the first record of its id in `s`. */
  lemma {:induction false} DedupFromKept(s: seq<Film>, i: nat)
    requires i <= |s|
    ensures forall f :: f in DedupFrom(s, i) ==>
              && f in s[i..] && FindIndexById(s, f.id) >= i
              && f == s[FindIndexById(s, f.id)]
    decreases |s| - i
  {
    if i < |s| {
      DedupFromKept(s, i + 1);
      assert s[i..] == [s[i]] + s[i + 1..];
    }
  }

  /** `DedupFrom(s, i)` repeats no id. */
  lemma {:induction false} DedupFromDistinct(s: seq<Film>, i: nat)
    requires i <= |s|
    ensures DistinctIds(DedupFrom(s, i))
    decreases |s| - i
  {
    if i < |s| && FindIndexById(s, s[i].id) == i {
      DedupFromDistinct(s, i + 1);
      DedupFromKept(s, i + 1);
      var rest := DedupFrom(s, i + 1);
      var r := [s[i]] + rest;
      forall a, b | 0 <= a < b < |r| ensures r[a].id != r[b].id {
        assert r[b] == rest[b - 1];
        if a > 0 {
          assert r[a] == rest[a - 1];
        }
      }
    } else if i < |s| {
      DedupFromDistinct(s, i + 1);
    }
  }

  /** `DedupFrom(s, i)` keeps the order of `s[i..]`. */
  lemma {:induction false} DedupFromSubsequence(s: seq<Film>, i: nat)
    requires i <= |s|
    ensures IsSubsequence(DedupFrom(s, i), s[i..])
    decreases |s| - i
  {
    if i < |s| {
      DedupFromSubsequence(s, i + 1);
      var rest := DedupFrom(s, i + 1);
      assert s[i..][1..] == s[i + 1..];
      if FindIndexById(s, s[i].id) == i {
        assert ([s[i]] + rest)[1..] == rest;
      } else {
        assert DedupFrom(s, i) == rest;
        assert IsSubsequence(rest, s[i..][1..]);
      }
    }
  }

  /** Every record that is the first of its id, at or after `i`, is kept. */
  lemma {:induction false} DedupFromKeepsFirsts(s: seq<Film>, i: nat, j: nat)
    requires i <= j < |s|
    requires FindIndexById(s, s[j].id) == j
    ensures s[j] in DedupFrom(s, i)
    decreases j - i
  {
    if i < j {
      DedupFromKeepsFirsts(s, i + 1, j);
    }
  }

  /** Removing repeats keeps one record of every id, repeats none, and keeps the order. */
  lemma DedupByIdFacts(s: seq<Film>)
    ensures DistinctIds(DedupById(s))
    ensures Ids(DedupById(s)) == Ids(s)
    ensures IsSubsequence(DedupById(s), s)
    ensures forall f :: f in DedupById(s) ==> f in s
  {
    DedupFromKept(s, 0);
    DedupFromDistinct(s, 0);
    DedupFromSubsequence(s, 0);
    assert s[0..] == s;
    forall id | id in Ids(s) ensures id in Ids(DedupById(s)) {
      var j := FindIndexById(s, id);
      DedupFromKeepsFirsts(s, 0, j);
    }
  }

  /** A sequence that starts with records of distinct ids keeps that start when repeats are removed. */
  lemma {:induction false} DedupFromKeepsDistinctPrefix(a: seq<Film>, b: seq<Film>, i: nat)
    requires DistinctIds(a)
    requires i <= |a|
    ensures a[i..] <= DedupFrom(a + b, i)
    decreases |a| - i
  {
    if i < |a| {
      DedupFromKeepsDistinctPrefix(a, b, i + 1);
      var s := a + b;
      var k := FindIndexById(s, s[i].id);
      assert forall j :: 0 <= j < i ==> s[j].id != s[i].id by {
        assert forall j :: 0 <= j <= i ==> s[j] == a[j];
      }
      assert k == i;
      assert a[i..] == [a[i]] + a[i + 1..];
    }
  }

  /** `[...results, ...lastSearched]` without repeated ids, then `.slice(0, 5)`. */
  function MergeRecent(results: seq<Film>, previous: seq<Film>): seq<Film> {
    Take(DedupById(results + previous), RecentLimit)
  }

  /** The merged recent-search list holds at most five records, no two with one id, each from
      the results or the old list, and it starts with the results when they are distinct. */
  lemma MergeRecentFacts(results: seq<Film>, previous: seq<Film>)
    ensures |MergeRecent(results, previous)| <= RecentLimit
    ensures DistinctIds(MergeRecent(results, previous))
    ensures forall f :: f in MergeRecent(results, previous) ==> f in results || f in previous
    ensures DistinctIds(results) ==> Take(results, RecentLimit) <= MergeRecent(results, previous)
    ensures |results + previous| > 0 ==> |MergeRecent(results, previous)| > 0
  {
    var d := DedupById(results + previous);
    DedupByIdFacts(results + previous);
    var r := MergeRecent(results, previous);
    assert forall f :: f in r ==> f in d;
    forall i, j | 0 <= i < j < |r| ensures r[i].id != r[j].id {
      assert r[i] == d[i] && r[j] == d[j];
    }
    if DistinctIds(results) {
      DedupFromKeepsDistinctPrefix(results, previous, 0);
      assert results[0..] == results;
    }
    if |results + previous| > 0 {
      var f := (results + previous)[0];
      assert f.id in Ids(results + previous);
    }
  }

  // ------------------------------------------------------------- recompute

  /** The recompute step's comparator `(a, b) => b.dateAdded - a.dateAdded`: newest first. */
  function NewestFirst(a: Film, b: Film): int {
    b.dateAdded - a.dateAdded
  }

  /** Sorting newest first is a consistent comparator. */
  lemma NewestFirstConsistent()
    ensures Consistent(NewestFirst)
  {
  }

  /** `[...films].sort(newest first).slice(0, 5)`: what the recompute step stores as `lastAdded`. */
  function LatestFive(films: seq<Film>): seq<Film> {
    Take(Sort(films, NewestFirst), RecentLimit)
  }

  /** Sorting newest first leaves no record before a newer one. */
  lemma SortNewestOrdered(films: seq<Film>)
    ensures forall i, j :: 0 <= i < j < |Sort(films, NewestFirst)| ==>
              Sort(films, NewestFirst)[i].dateAdded >= Sort(films, NewestFirst)[j].dateAdded
  {
    NewestFirstConsistent();
    SortSorted(films, NewestFirst);
    var s := Sort(films, NewestFirst);
    forall i, j | 0 <= i < j < |s| ensures s[i].dateAdded >= s[j].dateAdded {
      assert NewestFirst(s[i], s[j]) <= 0;
    }
  }

  /** The recent-additions list is the five newest records (fewer if the collection is smaller),
      newest first, drawn from the collection. */
  lemma LatestFiveNewest(films: seq<Film>)
    ensures |LatestFive(films)| == if |films| <= RecentLimit then |films| else RecentLimit
    ensures forall i, j :: 0 <= i < j < |LatestFive(films)| ==>
              LatestFive(films)[i].dateAdded >= LatestFive(films)[j].dateAdded
    ensures multiset(LatestFive(films)) <= multiset(films)
  {
    SortNewestOrdered(films);
    var s := Sort(films, NewestFirst);
    var r := LatestFive(films);
    assert s == r + s[|r|..];
    assert multiset(s) == multiset(r) + multiset(s[|r|..]);
  }

  /** Drawn from a collection without repeated ids, the recent-additions list repeats no id. */
  lemma LatestFiveKeepsDistinctIds(films: seq<Film>)
    requires DistinctIds(films)
    ensures DistinctIds(LatestFive(films))
  {
    LatestFiveNewest(films);
    SubMultisetKeepsDistinctIds(LatestFive(films), films);
  }

  /** Every record the recent-additions list leaves out is no newer than any record it keeps. */
  lemma LatestFiveLeavesOutOlder(films: seq<Film>, f: Film, k: nat)
    requires f in multiset(films) - multiset(LatestFive(films))
    requires k < |LatestFive(films)|
    ensures f.dateAdded <= LatestFive(films)[k].dateAdded
  {
    SortNewestOrdered(films);
    var s := Sort(films, NewestFirst);
    var r := LatestFive(films);
    var n := |r|;
    assert s == r + s[n..];
    assert multiset(s) == multiset(r) + multiset(s[n..]);
    assert f in multiset(s[n..]);
    var m :| 0 <= m < |s[n..]| && s[n..][m] == f;
    assert s[n + m] == f;
  }

  /** Records added at the same instant keep their collection order in the sorted list. */
  lemma NewestFirstStable(films: seq<Film>, e: Film)
    ensures Ties(Sort(films, NewestFirst), e, NewestFirst) == Ties(films, e, NewestFirst)
  {
    NewestFirstConsistent();
    SortStable(films, e, NewestFirst);
  }

  /** `Math.max(...films.map(f => f.dateAdded))`. */
  function MaxDate(films: seq<Film>): (m: int)
    requires |films| > 0
    ensures exists f :: f in films && f.dateAdded == m
    ensures forall f :: f in films ==> f.dateAdded <= m
  {
    if |films| == 1 then films[0].dateAdded
    else
      var rest := MaxDate(films[1..]);
      assert forall f :: f in films ==> f == films[0] || f in films[1..];
      if films[0].dateAdded >= rest then films[0].dateAdded else rest
  }

  /** The first of the recent-additions list carries the newest date of the collection. */
  lemma LatestFiveStartsAtMax(films: seq<Film>)
    requires |films| > 0
    ensures LatestFive(films)[0].dateAdded == MaxDate(films)
  {
    var s := Sort(films, NewestFirst);
    SortNewestOrdered(films);
    assert LatestFive(films)[0] == s[0];
    var f :| f in films && f.dateAdded == MaxDate(films);
    assert f in multiset(s);
    var k :| 0 <= k < |s| && s[k] == f;
    assert s[0].dateAdded >= f.dateAdded;
    assert s[0] in multiset(films);
  }

  /** `Math.ceil(n / d)` for whole numbers: the least `r` with `n <= r * d`. */
  function CeilDiv(n: nat, d: nat): (r: nat)
    requires d > 0
    ensures n <= r * d
    ensures r > 0 ==> (r - 1) * d < n
  {
    var r := (n + d - 1) / d;
    assert r * d <= n + d - 1 < (r + 1) * d;
    r
  }

  /** `Math.abs`. */
  function Abs(x: int): nat {
    if x < 0 then -x else x
  }

  /** The figures for a non-empty collection at time `now`: its size, and the whole days,
      rounded up, between `now` and its newest record. */
  function ComputeStats(films: seq<Film>, now: int): (r: Stats)
    requires |films| > 0
    ensures r.totalFilms == |films|
    ensures Abs(now - MaxDate(films)) <= r.daysSinceLastAdded * MillisPerDay
    ensures r.daysSinceLastAdded > 0 ==> (r.daysSinceLastAdded - 1) * MillisPerDay < Abs(now - MaxDate(films))
  {
    Stats(|films|, CeilDiv(Abs(now - MaxDate(films)), MillisPerDay))
  }

  /** Right at the newest record's time the figure is zero days; any time later within the
      next day, or earlier within the day before, it is one day. */
  lemma DaysSinceNewest(films: seq<Film>, now: int)
    requires |films| > 0
    ensures now == MaxDate(films) ==> ComputeStats(films, now).daysSinceLastAdded == 0
    ensures 0 < Abs(now - MaxDate(films)) <= MillisPerDay ==> ComputeStats(films, now).daysSinceLastAdded == 1
  {
  }

  /** The first record of a sorted collection is no newer than a bound on every record. */
  lemma SortHeadNoNewer(films: seq<Film>, d: int)
    requires films != []
    requires forall f :: f in films ==> f.dateAdded <= d
    ensures Sort(films, NewestFirst)[0].dateAdded <= d
  {
    assert Sort(films, NewestFirst)[0] in multiset(Sort(films, NewestFirst));
  }

  /** Records dated `d` followed by a sorted collection no newer than `d` start no later than `d`. */
  lemma NewestHeadBound(rest: seq<Film>, films: seq<Film>, d: int)
    requires forall f :: f in rest ==> f.dateAdded == d
    requires forall f :: f in films ==> f.dateAdded <= d
    ensures rest + Sort(films, NewestFirst) == [] || (rest + Sort(films, NewestFirst))[0].dateAdded <= d
  {
    if rest != [] {
      assert (rest + Sort(films, NewestFirst))[0] == rest[0];
    } else if films != [] {
      assert rest + Sort(films, NewestFirst) == Sort(films, NewestFirst);
      SortHeadNoNewer(films, d);
    }
  }

  /** A record at least as new as the head of a newest-first list is inserted in front of it. */
  lemma InsertNewest(x: Film, t: seq<Film>)
    requires t == [] || t[0].dateAdded <= x.dateAdded
    ensures Insert(x, t, NewestFirst) == [x] + t
  {
  }

  /** Sorting records that are all at least as new as the rest puts them in front in their own order. */
  lemma {:induction false} SortNewestAfterNewer(added: seq<Film>, films: seq<Film>, d: int)
    requires forall f :: f in added ==> f.dateAdded == d
    requires forall f :: f in films ==> f.dateAdded <= d
    ensures Sort(added + films, NewestFirst) == added + Sort(films, NewestFirst)
  {
    if added == [] {
      assert added + films == films;
    } else {
      var rest := added[1..];
      assert forall f :: f in rest ==> f in added;
      SortNewestAfterNewer(rest, films, d);
      NewestHeadBound(rest, films, d);
      SortConcatHead(added, films, NewestFirst);
      InsertNewest(added[0], rest + Sort(films, NewestFirst));
      ConsConcat(added, Sort(films, NewestFirst));
    }
  }

  /** When the new records share one time no older than any existing record, and `lastAdded`
      was up to date, the recompute step stores what the add operation stored. */
  lemma RecomputeAgreesWithAdd(added: seq<Film>, films: seq<Film>, d: int)
    requires forall f :: f in added ==> f.dateAdded == d
    requires forall f :: f in films ==> f.dateAdded <= d
    ensures LatestFive(added + films) == PrependRecent(added, LatestFive(films))
  {
    SortNewestAfterNewer(added, films, d);
    TakeConcatTake(added, Sort(films, NewestFirst), RecentLimit);
  }

  // ------------------------------------------------------------- the class

  /** `key` holds `value`, or is absent and `value` is empty. */
  ghost predicate Mirrors(storage: map<string, seq<Film>>, key: string, value: seq<Film>) {
    if key in storage then storage[key] == value else value == []
  }

  /** `storage.getItem(key)` parsed, or the empty list when the key is absent. */
  function StoredOrEmpty(storage: map<string, seq<Film>>, key: string): seq<Film> {
    if key in storage then storage[key] else []
  }

  class FilmCatalogue {
    var films: seq<Film>
    var lastSearched: seq<Film>
    var lastAdded: seq<Film>
    var stats: Stats
    /** The collection keys of the browser's local storage. */
    var storage: map<string, seq<Film>>

    /** Write-through: the collection is always stored, and each derived list is what its key
        holds, or empty while its key has never been written. */
    ghost predicate Valid()
      reads this
    {
      && FilmsKey in storage
      && Mirrors(storage, FilmsKey, films)
      && Mirrors(storage, LastSearchedKey, lastSearched)
      && Mirrors(storage, LastAddedKey, lastAdded)
    }

    /** `loadFromLocalStorage`: adopt what is stored; a missing collection is seeded with the
        demonstration records and written back; a missing derived list stays empty. */
    constructor (stored: map<string, seq<Film>>)
      ensures Valid()
      ensures films == if FilmsKey in stored then stored[FilmsKey] else InitialFilms
      ensures lastSearched == StoredOrEmpty(stored, LastSearchedKey)
      ensures lastAdded == StoredOrEmpty(stored, LastAddedKey)
      ensures stats == Stats(0, 0)
      ensures storage == if FilmsKey in stored then stored else stored[FilmsKey := InitialFilms]
    {
      stats := Stats(0, 0);
      if FilmsKey in stored {
        films := stored[FilmsKey];
        storage := stored;
      } else {
        films := InitialFilms;
        storage := stored[FilmsKey := InitialFilms];
      }
      lastSearched := StoredOrEmpty(stored, LastSearchedKey);
      lastAdded := StoredOrEmpty(stored, LastAddedKey);
    }

    /** `addFilm`: the new record goes in front of the collection and of the recent list. */
    method AddFilm(draft: FilmDraft, id: string, now: int)
      requires Valid()
      modifies this
      ensures Valid()
      ensures films == [Stamp(draft, id, now)] + old(films)
      ensures lastAdded == PrependRecent([Stamp(draft, id, now)], old(lastAdded))
      ensures storage == old(storage)[FilmsKey := films][LastAddedKey := lastAdded]
      ensures lastSearched == old(lastSearched) && stats == old(stats)
      ensures DistinctIds(old(films)) && id !in Ids(old(films)) ==> DistinctIds(films)
      ensures DistinctIds(old(lastAdded)) && id !in Ids(old(lastAdded)) ==> DistinctIds(lastAdded)
    {
      var film := Stamp(draft, id, now);
      if DistinctIds(films) && id !in Ids(films) {
        PrependKeepsDistinctIds([film], films);
      }
      if DistinctIds(lastAdded) && id !in Ids(lastAdded) {
        PrependKeepsDistinctIds([film], lastAdded);
        PrefixKeepsDistinctIds(PrependRecent([film], lastAdded), [film] + lastAdded);
      }
      films := [film] + films;
      storage := storage[FilmsKey := films];
      lastAdded := PrependRecent([film], lastAdded);
      storage := storage[LastAddedKey := lastAdded];
    }

    /** `addFilms`: the new records go in front, in input order, and so into the recent list. */
    method AddFilms(drafts: seq<FilmDraft>, ids: seq<string>, dates: seq<int>)
      requires Valid()
      requires |ids| == |drafts| && |dates| == |drafts|
      modifies this
      ensures Valid()
      ensures films == StampAll(drafts, ids, dates) + old(films)
      ensures lastAdded == PrependRecent(StampAll(drafts, ids, dates), old(lastAdded))
      ensures storage == old(storage)[FilmsKey := films][LastAddedKey := lastAdded]
      ensures lastSearched == old(lastSearched) && stats == old(stats)
      ensures (&& DistinctIds(StampAll(drafts, ids, dates)) && DistinctIds(old(films))
               && (forall k :: 0 <= k < |ids| ==> ids[k] !in Ids(old(films)))) ==> DistinctIds(films)
      ensures (&& DistinctIds(StampAll(drafts, ids, dates)) && DistinctIds(old(lastAdded))
               && (forall k :: 0 <= k < |ids| ==> ids[k] !in Ids(old(lastAdded)))) ==> DistinctIds(lastAdded)
    {
      var added := StampAll(drafts, ids, dates);
      if DistinctIds(added) && DistinctIds(films) && forall k :: 0 <= k < |ids| ==> ids[k] !in Ids(films) {
        FreshIdsUnseen(added, ids, films);
        PrependKeepsDistinctIds(added, films);
      }
      if DistinctIds(added) && DistinctIds(lastAdded) && forall k :: 0 <= k < |ids| ==> ids[k] !in Ids(lastAdded) {
        FreshIdsUnseen(added, ids, lastAdded);
        PrependKeepsDistinctIds(added, lastAdded);
        PrefixKeepsDistinctIds(PrependRecent(added, lastAdded), added + lastAdded);
      }
      films := added + films;
      storage := storage[FilmsKey := films];
      lastAdded := PrependRecent(added, lastAdded);
      storage := storage[LastAddedKey := lastAdded];
    }

    /** `deleteFilm`: every record with the id leaves all three lists; the rest stay in order. */
    method DeleteFilm(id: string)
      requires Valid()
      modifies this
      ensures Valid()
      ensures films == Without(old(films), id)
      ensures lastAdded == Without(old(lastAdded), id)
      ensures lastSearched == Without(old(lastSearched), id)
      ensures storage == old(storage)[FilmsKey := films][LastAddedKey := lastAdded][LastSearchedKey := lastSearched]
      ensures stats == old(stats)
    {
      films := Without(films, id);
      storage := storage[FilmsKey := films];
      lastAdded := Without(lastAdded, id);
      lastSearched := Without(lastSearched, id);
      storage := storage[LastAddedKey := lastAdded];
      storage := storage[LastSearchedKey := lastSearched];
    }

    /** `searchFilms`: a blank term finds nothing and changes nothing; otherwise every match is
        returned, and the matches are merged into the front of the recent-search list. */
    method SearchFilms(term: string) returns (results: seq<Film>)
      requires Valid()
      modifies this
      ensures Valid()
      ensures results == SearchOutcome(films, term)
      ensures IsBlank(term) ==> lastSearched == old(lastSearched) && storage == old(storage)
      ensures !IsBlank(term) ==> lastSearched == MergeRecent(results, old(lastSearched))
      ensures !IsBlank(term) ==> storage == old(storage)[LastSearchedKey := lastSearched]
      ensures !IsBlank(term) ==> |lastSearched| <= RecentLimit && DistinctIds(lastSearched)
      ensures films == old(films) && lastAdded == old(lastAdded) && stats == old(stats)
    {
      if IsBlank(term) {
        return [];
      }
      results := SearchResults(films, term);
      MergeRecentFacts(results, lastSearched);
      lastSearched := MergeRecent(results, lastSearched);
      storage := storage[LastSearchedKey := lastSearched];
    }

    /** The effect that runs after every change of the collection: nothing when it is empty,
        otherwise fresh figures and the five newest records as the recent list. */
    method RecomputeStats(now: int)
      requires Valid()
      modifies this
      ensures Valid()
      ensures films == old(films) && lastSearched == old(lastSearched)
      ensures |films| == 0 ==> stats == old(stats) && lastAdded == old(lastAdded) && storage == old(storage)
      ensures |films| > 0 ==> stats == ComputeStats(films, now) && lastAdded == LatestFive(films)
      ensures |films| > 0 ==> storage == old(storage)[LastAddedKey := lastAdded]
      ensures |films| > 0 && DistinctIds(films) ==> DistinctIds(lastAdded)
    {
      if |films| == 0 {
        return;
      }
      stats := ComputeStats(films, now);
      if DistinctIds(films) {
        LatestFiveKeepsDistinctIds(films);
      }
      lastAdded := LatestFive(films);
      storage := storage[LastAddedKey := lastAdded];
    }
  }
}
