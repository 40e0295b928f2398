/** `Array.prototype.sort` with a comparator, as the screens and the catalogue use it.
    JavaScript's sort is stable, and for a consistent comparator a stable sort has a
    single possible outcome; insertion sort is used here as that outcome's definition. */
module Sorting {

  /** A comparator in JavaScript's sense: negative puts `a` first, positive puts `b` first,
      zero keeps the two in their input order. */
  type Comparator<!T> = (T, T) -> int

  /** What the language asks of a comparator so that its sort is well defined: swapping the
      arguments flips the sign, and "not after" is transitive. */
  ghost predicate Consistent<T(!new)>(cmp: Comparator<T>) {
    && (forall a, b :: cmp(a, b) < 0 <==> cmp(b, a) > 0)
    && (forall a, b, c :: cmp(a, b) <= 0 && cmp(b, c) <= 0 ==> cmp(a, c) <= 0)
  }

  /** No element is placed after one that should come later. */
  ghost predicate Sorted<T>(s: seq<T>, cmp: Comparator<T>) {
    forall i, j :: 0 <= i < j < |s| ==> cmp(s[i], s[j]) <= 0
  }

  /** `x` placed in front of the first element of `t` it does not sort after. */
  function Insert<T>(x: T, t: seq<T>, cmp: Comparator<T>): (r: seq<T>)
    ensures multiset(r) == multiset(t) + multiset{x}
  {
    if t == [] || cmp(x, t[0]) <= 0 then [x] + t
    else
      assert t == [t[0]] + t[1..];
      [t[0]] + Insert(x, t[1..], cmp)
  }

  /** `[...s].sort(cmp)`: the same elements, the same number of times each. */
  function Sort<T>(s: seq<T>, cmp: Comparator<T>): (r: seq<T>)
    ensures multiset(r) == multiset(s)
    ensures |r| == |s|
  {
    if s == [] then []
    else
      assert s == [s[0]] + s[1..];
      Insert(s[0], Sort(s[1..], cmp), cmp)
  }

  /** The elements of an insertion are the inserted one and those of the sequence. */
  lemma InsertMembers<T>(x: T, t: seq<T>, cmp: Comparator<T>, y: T)
    ensures y in Insert(x, t, cmp) <==> y == x || y in t
  {
    assert y in Insert(x, t, cmp) <==> y in multiset(Insert(x, t, cmp));
    assert y in t <==> y in multiset(t);
  }

  /** A sorted sequence stays sorted behind a head that sorts before all of it. */
  lemma SortedCons<T>(h: T, t: seq<T>, cmp: Comparator<T>)
    requires Sorted(t, cmp)
    requires forall y :: y in t ==> cmp(h, y) <= 0
    ensures Sorted([h] + t, cmp)
  {
    var r := [h] + t;
    forall i, j | 0 <= i < j < |r| ensures cmp(r[i], r[j]) <= 0 {
      assert r[j] == t[j - 1];
      if i > 0 {
        assert r[i] == t[i - 1];
      }
    }
  }

  /** Inserting into a sorted sequence keeps it sorted, when the comparator is consistent. */
  lemma {:induction false} InsertSorted<T(!new)>(x: T, t: seq<T>, cmp: Comparator<T>)
    requires Consistent(cmp)
    requires Sorted(t, cmp)
    ensures Sorted(Insert(x, t, cmp), cmp)
  {
    if t == [] || cmp(x, t[0]) <= 0 {
      forall y | y in t ensures cmp(x, y) <= 0 {
        var k :| 0 <= k < |t| && t[k] == y;
        if k > 0 {
          assert cmp(t[0], t[k]) <= 0;
        }
      }
      SortedCons(x, t, cmp);
    } else {
      InsertSorted(x, t[1..], cmp);
      var rest := Insert(x, t[1..], cmp);
      forall y | y in rest ensures cmp(t[0], y) <= 0 {
        InsertMembers(x, t[1..], cmp, y);
        if y != x {
          var k :| 0 <= k < |t[1..]| && t[1..][k] == y;
          assert t[k + 1] == y;
        }
      }
      SortedCons(t[0], rest, cmp);
    }
  }

  /** The sort orders its output, when the comparator is consistent. */
  lemma {:induction false} SortSorted<T(!new)>(s: seq<T>, cmp: Comparator<T>)
    requires Consistent(cmp)
    ensures Sorted(Sort(s, cmp), cmp)
  {
    if s != [] {
      SortSorted(s[1..], cmp);
      InsertSorted(s[0], Sort(s[1..], cmp), cmp);
    }
  }

  /** The elements of `s` the comparator cannot tell apart from `e`, in their order in `s`. */
  function Ties<T>(s: seq<T>, e: T, cmp: Comparator<T>): seq<T> {
    if s == [] then []
    else (if cmp(s[0], e) == 0 then [s[0]] else []) + Ties(s[1..], e, cmp)
  }

  /** Inserting `x` adds it to its tie class in front of the ties already there. */
  lemma {:induction false} TiesOfInsert<T(!new)>(x: T, t: seq<T>, e: T, cmp: Comparator<T>)
    requires TieClosed(x, e, cmp)
    ensures Ties(Insert(x, t, cmp), e, cmp) == (if cmp(x, e) == 0 then [x] else []) + Ties(t, e, cmp)
  {
    if t == [] || cmp(x, t[0]) <= 0 {
      assert ([x] + t)[1..] == t;
    } else {
      TiesOfInsert(x, t[1..], e, cmp);
      var rest := Insert(x, t[1..], cmp);
      assert ([t[0]] + rest)[1..] == rest;
      var head := if cmp(t[0], e) == 0 then [t[0]] else [];
      var mine := if cmp(x, e) == 0 then [x] else [];
      calc {
        Ties(Insert(x, t, cmp), e, cmp);
        head + Ties(rest, e, cmp);
        head + (mine + Ties(t[1..], e, cmp));
        { assert head == [] || mine == []; }
        mine + (head + Ties(t[1..], e, cmp));
      }
    }
  }

  /** When `x` ties with `e`, nothing else that ties with `e` sorts strictly before `x`. */
  ghost predicate TieClosed<T(!new)>(x: T, e: T, cmp: Comparator<T>) {
    forall y :: cmp(x, e) == 0 && cmp(y, e) == 0 ==> cmp(x, y) <= 0
  }

  /** A consistent comparator's tie classes are closed. */
  lemma ConsistentTieClosed<T(!new)>(x: T, e: T, cmp: Comparator<T>)
    requires Consistent(cmp)
    ensures TieClosed(x, e, cmp)
  {
    forall y | cmp(x, e) == 0 && cmp(y, e) == 0 ensures cmp(x, y) <= 0 {
      assert cmp(e, y) <= 0;
    }
  }

  /** Stability: elements that compare equal keep their input order. */
  lemma {:induction false} SortStable<T(!new)>(s: seq<T>, e: T, cmp: Comparator<T>)
    requires Consistent(cmp)
    ensures Ties(Sort(s, cmp), e, cmp) == Ties(s, e, cmp)
  {
    if s != [] {
      SortStable(s[1..], e, cmp);
      ConsistentTieClosed(s[0], e, cmp);
      TiesOfInsert(s[0], Sort(s[1..], cmp), e, cmp);
    }
  }

  /** A sequence that is already in order comes out of the sort unchanged. */
  lemma {:induction false} SortOfSorted<T>(s: seq<T>, cmp: Comparator<T>)
    requires Sorted(s, cmp)
    ensures Sort(s, cmp) == s
  {
    if s != [] {
      assert Sorted(s[1..], cmp) by {
        forall i, j | 0 <= i < j < |s| - 1 ensures cmp(s[1..][i], s[1..][j]) <= 0 {
          assert s[1..][i] == s[i + 1] && s[1..][j] == s[j + 1];
        }
      }
      SortOfSorted(s[1..], cmp);
      assert s == [s[0]] + s[1..];
    }
  }

  /** Sorting `a + b` inserts the head of `a` into the sorted remainder. */
  lemma SortConcatHead<T>(a: seq<T>, b: seq<T>, cmp: Comparator<T>)
    requires a != []
    ensures Sort(a + b, cmp) == Insert(a[0], Sort(a[1..] + b, cmp), cmp)
  {
    var s := a + b;
    assert s[0] == a[0];
    assert s[1..] == a[1..] + b;
  }
}
