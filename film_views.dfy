/** What the library and search screens share: the sort options, the `|| "0"` sort keys and
    the genre list built with `[...new Set(...)]` (components/library-screen.tsx and
    components/search-screen.tsx). */
module FilmViews {
  import opened Films
  import opened Sorting

  /** The values of the sort selector. */
  datatype SortOption =
    | Title | TitleDesc
    | Year | YearDesc
    | GenreOrder
    | IdNumber | IdNumberDesc
    | DateAdded | DateAddedDesc

  /** `s || d`: the text, or the default when the text is empty. */
  function OrDefault(s: string, d: string): (r: string)
    ensures s != "" ==> r == s
    ensures s == "" ==> r == d
  {
    if s == "" then d else s
  }

  /** The year a film is sorted by: an empty year counts as "0". */
  function YearKey(f: Film): string {
    OrDefault(f.year, "0")
  }

  /** The catalogue number a film is sorted by: an empty one counts as "0". */
  function IdKey(f: Film): string {
    OrDefault(f.idNumber, "0")
  }

  /** The title a film is sorted by. */
  function TitleKey(f: Film): string {
    f.title
  }

  /** The genre a film is sorted by (`genre || ""`, the genre itself). */
  function GenreKey(f: Film): string {
    OrDefault(f.genre, "")
  }

  /** The genre of a film, the key of the genre lists. */
  function GenreOf(f: Film): string {
    f.genre
  }

  /** A comparator that applies a consistent string order to one key of each film is
      consistent. */
  lemma KeyedConsistent(cmp: Comparator<Film>, loc: Comparator<string>, key: Film -> string)
    requires Consistent(loc)
    requires forall a, b :: cmp(a, b) == loc(key(a), key(b))
    ensures Consistent(cmp)
  {
    forall a, b, c | cmp(a, b) <= 0 && cmp(b, c) <= 0 ensures cmp(a, c) <= 0 {
      assert loc(key(a), key(b)) <= 0 && loc(key(b), key(c)) <= 0;
    }
  }

  /** So is one that applies it to the keys in swapped order. */
  lemma SwappedKeyedConsistent(cmp: Comparator<Film>, loc: Comparator<string>, key: Film -> string)
    requires Consistent(loc)
    requires forall a, b :: cmp(a, b) == loc(key(b), key(a))
    ensures Consistent(cmp)
  {
    forall a, b, c | cmp(a, b) <= 0 && cmp(b, c) <= 0 ensures cmp(a, c) <= 0 {
      assert loc(key(c), key(b)) <= 0 && loc(key(b), key(a)) <= 0;
    }
  }

  /** `new Set(...)` filled in order with the non-empty keys of `s`: each key once, where it
      first occurs. */
  function FirstOccurrences<T>(s: seq<T>, key: T -> string): seq<string> {
    if s == [] then []
    else
      var seen := FirstOccurrences(s[..|s| - 1], key);
      var k := key(s[|s| - 1]);
      if k == "" || k in seen then seen else seen + [k]
  }

  /** No element of `r` occurs twice. */
  predicate NoRepeats(r: seq<string>) {
    forall i, j :: 0 <= i < j < |r| ==> r[i] != r[j]
  }

  /** Each element of `r` first occurs (as a key) in `s` before each element after it in `r`:
      every occurrence of a later one has an occurrence of an earlier one before it. */
  ghost predicate InFirstOccurrenceOrder<T>(r: seq<string>, s: seq<T>, key: T -> string) {
    forall i, j, l :: 0 <= i < j < |r| && 0 <= l < |s| && key(s[l]) == r[j] ==>
      exists m :: 0 <= m < l && key(s[m]) == r[i]
  }

  /** Appending one element adds its key at the end when the key is new and not empty. */
  lemma FirstOccurrencesSnoc<T>(p: seq<T>, x: T, key: T -> string)
    ensures FirstOccurrences(p + [x], key)
         == (if key(x) == "" || key(x) in FirstOccurrences(p, key) then FirstOccurrences(p, key)
             else FirstOccurrences(p, key) + [key(x)])
  {
    assert (p + [x])[..|p|] == p;
  }

  /** The set holds exactly the non-empty keys of `s`. */
  lemma {:induction false} FirstOccurrencesMembers<T>(s: seq<T>, key: T -> string)
    ensures forall k :: k in FirstOccurrences(s, key) <==> k != "" && exists l :: 0 <= l < |s| && key(s[l]) == k
  {
    if s != [] {
      var p, x := s[..|s| - 1], s[|s| - 1];
      assert s == p + [x];
      assert forall l :: 0 <= l < |p| ==> s[l] == p[l];
      FirstOccurrencesMembers(p, key);
      FirstOccurrencesSnoc(p, x, key);
    }
  }

  /** The set holds each key once. */
  lemma {:induction false} FirstOccurrencesNoRepeats<T>(s: seq<T>, key: T -> string)
    ensures NoRepeats(FirstOccurrences(s, key))
  {
    if s != [] {
      var p, x := s[..|s| - 1], s[|s| - 1];
      assert s == p + [x];
      FirstOccurrencesNoRepeats(p, key);
      FirstOccurrencesSnoc(p, x, key);
    }
  }

  /** One more element keeps the keys in first-occurrence order. */
  lemma FirstOccurrencesOrderStep<T>(p: seq<T>, x: T, key: T -> string)
    requires InFirstOccurrenceOrder(FirstOccurrences(p, key), p, key)
    ensures InFirstOccurrenceOrder(FirstOccurrences(p + [x], key), p + [x], key)
  {
    var s := p + [x];
    var n := |p|;
    var seen := FirstOccurrences(p, key);
    FirstOccurrencesSnoc(p, x, key);
    FirstOccurrencesMembers(p, key);
    assert forall l :: 0 <= l < n ==> s[l] == p[l];
    var r := FirstOccurrences(s, key);
    forall i, j, l | 0 <= i < j < |r| && 0 <= l < |s| && key(s[l]) == r[j]
      ensures exists m :: 0 <= m < l && key(s[m]) == r[i]
    {
      assert r[i] in seen;
      var m :| 0 <= m < |p| && key(p[m]) == r[i];
      if l < n {
        assert key(p[l]) == seen[j];
        var m' :| 0 <= m' < l && key(p[m']) == seen[i];
        assert key(s[m']) == r[i];
      } else {
        assert key(s[m]) == r[i];
      }
    }
  }

  /** The set lists the keys in the order they first occur. */
  lemma {:induction false} FirstOccurrencesOrder<T>(s: seq<T>, key: T -> string)
    ensures InFirstOccurrenceOrder(FirstOccurrences(s, key), s, key)
  {
    if s != [] {
      var p, x := s[..|s| - 1], s[|s| - 1];
      assert s == p + [x];
      FirstOccurrencesOrder(p, key);
      FirstOccurrencesOrderStep(p, x, key);
    }
  }

  /** The set's contents: exactly the non-empty keys of `s`, each once, in order of first
      occurrence. */
  lemma FirstOccurrencesFacts<T>(s: seq<T>, key: T -> string)
    ensures forall k :: k in FirstOccurrences(s, key) <==> k != "" && exists l :: 0 <= l < |s| && key(s[l]) == k
    ensures NoRepeats(FirstOccurrences(s, key))
    ensures InFirstOccurrenceOrder(FirstOccurrences(s, key), s, key)
  {
    FirstOccurrencesMembers(s, key);
    FirstOccurrencesNoRepeats(s, key);
    FirstOccurrencesOrder(s, key);
  }
}
