/** The catalogue's record types (lib/types.ts) and the small sequence helpers every
    screen shares. Timestamps are whole milliseconds since the epoch. */
module Films {

  /** One catalogue entry. Every field but `dateAdded` is free text. */
  datatype Film = Film(
    id: string,
    title: string,
    director: string,
    actors: string,
    genre: string,
    idNumber: string,
    year: string,
    tags: string,
    imageUrl: string,
    dateAdded: int)

  /** What a caller supplies when adding a film: every field but `id` and `dateAdded`. */
  datatype FilmDraft = FilmDraft(
    title: string,
    director: string,
    actors: string,
    genre: string,
    idNumber: string,
    year: string,
    tags: string,
    imageUrl: string)

  /** The figures shown on the dashboard. */
  datatype Stats = Stats(totalFilms: nat, daysSinceLastAdded: nat)

  /** The fields of `f` a caller could have supplied. */
  function DraftOf(f: Film): FilmDraft {
    FilmDraft(f.title, f.director, f.actors, f.genre, f.idNumber, f.year, f.tags, f.imageUrl)
  }

  /** `{...draft, id, dateAdded}`: the draft turned into a record. */
  function Stamp(d: FilmDraft, id: string, dateAdded: int): (f: Film)
    ensures f.id == id && f.dateAdded == dateAdded
    ensures DraftOf(f) == d
  {
    Film(id, d.title, d.director, d.actors, d.genre, d.idNumber, d.year, d.tags, d.imageUrl, dateAdded)
  }

  /** The ids that occur in `s`. */
  function Ids(s: seq<Film>): set<string> {
    set f | f in s :: f.id
  }

  /** No two records of `s` share an id. */
  predicate DistinctIds(s: seq<Film>) {
    forall i, j :: 0 <= i < j < |s| ==> s[i].id != s[j].id
  }

  /** `s.slice(0, n)`: the first `n` elements, or all of them when there are fewer. */
  function Take<T>(s: seq<T>, n: nat): (r: seq<T>)
    ensures r <= s
    ensures |r| == if |s| <= n then |s| else n
  {
    if |s| <= n then s else s[..n]
  }

  /** Cutting `b` to `n` elements before appending it to `a` does not change the first `n`. */
  lemma TakeConcatTake<T>(a: seq<T>, b: seq<T>, n: nat)
    ensures Take(a + Take(b, n), n) == Take(a + b, n)
  {
    if |a + b| > n {
      if |a| < n {
        assert (a + Take(b, n))[..n] == (a + b)[..n];
      } else {
        assert (a + Take(b, n))[..n] == a[..n] == (a + b)[..n];
      }
    }
  }

  /** Taking the head off `a` and putting it back in front of `a[1..] + s` gives `a + s`. */
  lemma ConsConcat<T>(a: seq<T>, s: seq<T>)
    requires a != []
    ensures [a[0]] + (a[1..] + s) == a + s
  {
    assert a == [a[0]] + a[1..];
  }

  /** `a` can be obtained from `b` by deleting elements: its elements occur in `b` in the same order. */
  ghost predicate IsSubsequence<T>(a: seq<T>, b: seq<T>) {
    a == [] || (b != [] && ((a[0] == b[0] && IsSubsequence(a[1..], b[1..])) || IsSubsequence(a, b[1..])))
  }

  /** `s.filter(p)`: the elements of `s` that satisfy `p`, in their order in `s`. */
  function Filter<T(!new)>(s: seq<T>, p: T -> bool): (r: seq<T>)
    ensures forall x :: x in r <==> x in s && p(x)
    ensures IsSubsequence(r, s)
    ensures (forall x :: x in s ==> p(x)) ==> r == s
    ensures |r| <= |s|
  {
    if s == [] then []
    else
      var rest := Filter(s[1..], p);
      assert s == [s[0]] + s[1..];
      if p(s[0]) then
        assert ([s[0]] + rest)[1..] == rest;
        [s[0]] + rest
      else rest
  }

  /** `filter` keeps each passing element as many times as it occurs, and no other element. */
  lemma {:induction false} FilterCounts<T(!new)>(s: seq<T>, p: T -> bool)
    ensures forall x :: multiset(Filter(s, p))[x] == if p(x) then multiset(s)[x] else 0
  {
    if s != [] {
      FilterCounts(s[1..], p);
      assert s == [s[0]] + s[1..];
    }
  }

  /** Filtering with two tests that agree on every element gives the same result. */
  lemma {:induction false} FilterCongruent<T(!new)>(s: seq<T>, p: T -> bool, q: T -> bool)
    requires forall x :: x in s ==> p(x) == q(x)
    ensures Filter(s, p) == Filter(s, q)
  {
    if s != [] {
      FilterCongruent(s[1..], p, q);
    }
  }

  /** Filtering out every element leaves nothing. */
  lemma {:induction false} FilterNone<T(!new)>(s: seq<T>, p: T -> bool)
    requires forall x :: x in s ==> !p(x)
    ensures Filter(s, p) == []
  {
    if s != [] {
      FilterNone(s[1..], p);
    }
  }

  /** Filtering a sequence that starts with `x` decides `x` first. */
  lemma FilterCons<T(!new)>(x: T, t: seq<T>, p: T -> bool)
    ensures Filter([x] + t, p) == (if p(x) then [x] else []) + Filter(t, p)
  {
    assert ([x] + t)[1..] == t;
  }

  /** Filtering distributes over concatenation. */
  lemma {:induction false} FilterConcat<T(!new)>(a: seq<T>, b: seq<T>, p: T -> bool)
    ensures Filter(a + b, p) == Filter(a, p) + Filter(b, p)
  {
    if a == [] {
      assert a + b == b;
    } else {
      var x, t := a[0], a[1..];
      var h := if p(x) then [x] else [];
      calc {
        Filter(a + b, p);
      == { assert a + b == [x] + (t + b); }
        Filter([x] + (t + b), p);
      == { FilterCons(x, t + b, p); }
        h + Filter(t + b, p);
      == { FilterConcat(t, b, p); }
        h + (Filter(t, p) + Filter(b, p));
      ==
        (h + Filter(t, p)) + Filter(b, p);
      == { FilterCons(x, t, p); assert a == [x] + t; }
        Filter(a, p) + Filter(b, p);
      }
    }
  }

  /** A front part of a list without repeated ids repeats no id. */
  lemma PrefixKeepsDistinctIds(r: seq<Film>, s: seq<Film>)
    requires r <= s && DistinctIds(s)
    ensures DistinctIds(r)
  {
  }

  /** Two records of a list without repeated ids that share an id are the same record. */
  lemma SameIdSameRecord(s: seq<Film>, x: Film, y: Film)
    requires DistinctIds(s) && x in s && y in s
    ensures x.id == y.id ==> x == y
  {
    if x.id == y.id {
      var a :| 0 <= a < |s| && s[a] == x;
      var b :| 0 <= b < |s| && s[b] == y;
      assert a == b;
    }
  }

  /** In a list without repeated ids no record occurs twice. */
  lemma {:induction false} DistinctIdsOccurOnce(s: seq<Film>, f: Film)
    requires DistinctIds(s)
    ensures multiset(s)[f] <= 1
  {
    if s != [] {
      var t := s[1..];
      assert s == [s[0]] + t;
      forall k | 0 <= k < |t| ensures t[k].id != s[0].id {
        assert t[k] == s[k + 1];
      }
      assert DistinctIds(t) by {
        forall i, j | 0 <= i < j < |t| ensures t[i].id != t[j].id {
          assert t[i] == s[i + 1] && t[j] == s[j + 1];
        }
      }
      DistinctIdsOccurOnce(t, f);
    }
  }

  /** A list that holds each record at most as often as a list without repeated ids has no
      repeated ids either. */
  lemma SubMultisetKeepsDistinctIds(r: seq<Film>, s: seq<Film>)
    requires DistinctIds(s) && multiset(r) <= multiset(s)
    ensures DistinctIds(r)
  {
    forall i, j | 0 <= i < j < |r| ensures r[i].id != r[j].id {
      assert r[i] in multiset(r) && r[j] in multiset(r);
      SameIdSameRecord(s, r[i], r[j]);
      assert r == r[..j] + r[j..];
      assert r[i] in r[..j] && r[j] in r[j..];
      assert multiset(r)[r[j]] == multiset(r[..j])[r[j]] + multiset(r[j..])[r[j]];
      DistinctIdsOccurOnce(s, r[j]);
    }
  }

  /** Filtering a sequence without repeated ids cannot repeat an id. */
  lemma {:induction false} FilterKeepsDistinctIds(s: seq<Film>, p: Film -> bool)
    requires DistinctIds(s)
    ensures DistinctIds(Filter(s, p))
  {
    if s != [] {
      FilterKeepsDistinctIds(s[1..], p);
      var rest := Filter(s[1..], p);
      if p(s[0]) {
        forall j | 0 <= j < |rest| ensures rest[j].id != s[0].id {
          assert rest[j] in s[1..];
        }
        assert DistinctIds([s[0]] + rest) by {
          forall i, j | 0 <= i < j < |rest| + 1 ensures ([s[0]] + rest)[i].id != ([s[0]] + rest)[j].id {
            if i > 0 {
              assert ([s[0]] + rest)[i] == rest[i - 1];
            }
          }
        }
      }
    }
  }

  /** How many of the most recent records the two derived lists keep. */
  const RecentLimit: nat := 5

  /** One day in milliseconds. */
  const MillisPerDay: nat := 86400000

  /** Midnight UTC of 1 January 2023, in milliseconds since the epoch. */
  const SeedEpoch: int := 1672531200000

  /** The five demonstration records a fresh catalogue starts with; the k-th was added
      at midnight UTC of 2023-01-k. */
  const InitialFilms: seq<Film> := [
    Film("1", "Night of the Living Dead", "George A. Romero", "Duane Jones, Judith O'Dea", "Horror",
         "001", "1968", "zombie,classic,black and white",
         "https://hebbkx1anhila5yf.public.blob.vercel-storage.com/film%20card%20modal.jpg-uTa3i4rO9FGEnWoR5AreZlVdef2ekd.jpeg",
         SeedEpoch),
    Film("2", "The Godfather", "Francis Ford Coppola", "Marlon Brando, Al Pacino", "Crime",
         "002", "1972", "mafia,classic,drama", "/placeholder.svg?height=300&width=300",
         SeedEpoch + MillisPerDay),
    Film("3", "Pulp Fiction", "Quentin Tarantino", "John Travolta, Uma Thurman", "Crime",
         "003", "1994", "crime,classic,tarantino", "/placeholder.svg?height=300&width=300",
         SeedEpoch + 2 * MillisPerDay),
    Film("4", "The Shawshank Redemption", "Frank Darabont", "Tim Robbins, Morgan Freeman", "Drama",
         "004", "1994", "prison,drama,classic", "/placeholder.svg?height=300&width=300",
         SeedEpoch + 3 * MillisPerDay),
    Film("5", "The Dark Knight", "Christopher Nolan", "Christian Bale, Heath Ledger", "Action",
         "005", "2008", "superhero,batman,nolan", "/placeholder.svg?height=300&width=300",
         SeedEpoch + 4 * MillisPerDay)
  ]

  /** The demonstration records have distinct ids, and each is a day newer than the one before. */
  lemma InitialFilmsWellFormed()
    ensures |InitialFilms| == RecentLimit
    ensures DistinctIds(InitialFilms)
    ensures forall k :: 0 <= k < |InitialFilms| ==> InitialFilms[k].dateAdded == SeedEpoch + k * MillisPerDay
  {
  }
}
