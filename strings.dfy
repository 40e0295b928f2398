/** ASCII models of the JavaScript string methods the catalogue calls: `trim`,
    `toLowerCase`, `toUpperCase`, `includes`, `replace` with a string pattern,
    `split` on one character, and the decimal `toString` of a timestamp. */
module AsciiText {

  /** The ASCII characters that `String.prototype.trim` strips. */
  predicate IsSpace(c: char) {
    c == ' ' || c == '\t' || c == '\n' || c == '\r' || c == '\U{B}' || c == '\U{C}'
  }

  /** `s` without its leading white space. */
  function TrimStart(s: string): string {
    if |s| > 0 && IsSpace(s[0]) then TrimStart(s[1..]) else s
  }

  /** `s` without its trailing white space. */
  function TrimEnd(s: string): string {
    if |s| > 0 && IsSpace(s[|s| - 1]) then TrimEnd(s[..|s| - 1]) else s
  }

  /** What `TrimStart` keeps is a suffix that does not start with white space, and everything
      it cuts off is white space. */
  lemma {:induction false} TrimStartFacts(s: string)
    ensures |TrimStart(s)| <= |s| && TrimStart(s) == s[|s| - |TrimStart(s)|..]
    ensures TrimStart(s) == [] || !IsSpace(TrimStart(s)[0])
    ensures forall i :: 0 <= i < |s| - |TrimStart(s)| ==> IsSpace(s[i])
  {
    if |s| > 0 && IsSpace(s[0]) {
      TrimStartFacts(s[1..]);
      var r := TrimStart(s[1..]);
      assert forall i :: 1 <= i < |s| - |r| ==> s[i] == s[1..][i - 1];
    }
  }

  /** What `TrimEnd` keeps is a prefix that does not end with white space, and everything it
      cuts off is white space. */
  lemma {:induction false} TrimEndFacts(s: string)
    ensures |TrimEnd(s)| <= |s| && TrimEnd(s) == s[..|TrimEnd(s)|]
    ensures TrimEnd(s) == [] || !IsSpace(TrimEnd(s)[|TrimEnd(s)| - 1])
    ensures forall i :: |TrimEnd(s)| <= i < |s| ==> IsSpace(s[i])
  {
    if |s| > 0 && IsSpace(s[|s| - 1]) {
      TrimEndFacts(s[..|s| - 1]);
    }
  }

  /** `s.trim()`. */
  function Trim(s: string): string {
    TrimEnd(TrimStart(s))
  }

  /** JavaScript's `!s.trim()`: nothing is left once `s` is trimmed. */
  predicate IsBlank(s: string) {
    Trim(s) == ""
  }

  /** A string that `trim` leaves alone: empty, or neither end is white space. */
  predicate Trimmed(s: string) {
    s == [] || (!IsSpace(s[0]) && !IsSpace(s[|s| - 1]))
  }

  /** A string is blank exactly when every character of it is white space. */
  lemma BlankIffAllSpace(s: string)
    ensures IsBlank(s) <==> forall i :: 0 <= i < |s| ==> IsSpace(s[i])
  {
    var t := TrimStart(s);
    TrimStartFacts(s);
    TrimEndFacts(t);
    if IsBlank(s) {
      assert t == [];
    } else {
      assert t != [];
    }
  }

  /** Trimming yields a trimmed string, and trimming a trimmed string changes nothing. */
  lemma TrimIsTrimmed(s: string)
    ensures Trimmed(Trim(s))
    ensures Trimmed(s) ==> Trim(s) == s
  {
    var t := TrimStart(s);
    TrimStartFacts(s);
    TrimEndFacts(t);
    var r := TrimEnd(t);
    if r != [] {
      assert r[0] == t[0];
    }
    if Trimmed(s) && s != [] {
      assert TrimStart(s) == s;
    }
  }

  /** `toLowerCase` on one ASCII character. */
  function LowerChar(c: char): char {
    if 'A' <= c <= 'Z' then (c as int + 32) as char else c
  }

  /** `toUpperCase` on one ASCII character. */
  function UpperChar(c: char): char {
    if 'a' <= c <= 'z' then (c as int - 32) as char else c
  }

  /** Changing the case of a character does not change whether it is white space. */
  lemma CaseKeepsSpace(c: char)
    ensures IsSpace(UpperChar(c)) == IsSpace(c)
    ensures IsSpace(LowerChar(c)) == IsSpace(c)
  {
  }

  /** `s.toLowerCase()`, ASCII letters only. */
  function ToLower(s: string): string {
    seq(|s|, i requires 0 <= i < |s| => LowerChar(s[i]))
  }

  /** `s.toUpperCase()`, ASCII letters only. */
  function ToUpper(s: string): string {
    seq(|s|, i requires 0 <= i < |s| => UpperChar(s[i]))
  }

  /** Lower-casing works character by character, so it distributes over concatenation. */
  lemma ToLowerConcat(a: string, b: string)
    ensures ToLower(a + b) == ToLower(a) + ToLower(b)
  {
    assert forall i :: 0 <= i < |a| + |b| ==> ToLower(a + b)[i] == (ToLower(a) + ToLower(b))[i];
  }

  /** Lower-casing forgets every earlier change of case. */
  lemma ToLowerForgetsCase(s: string)
    ensures ToLower(ToUpper(s)) == ToLower(s)
    ensures ToLower(ToLower(s)) == ToLower(s)
  {
  }

  /** `s.includes(t)`. */
  predicate Contains(s: string, t: string) {
    t <= s || (s != [] && Contains(s[1..], t))
  }

  /** `t` occurs in `s` starting at position `i`. */
  predicate OccursAt(s: string, t: string, i: int) {
    0 <= i <= |s| - |t| && s[i..i + |t|] == t
  }

  /** Occurrences in the tail are the occurrences in the whole, one position earlier. */
  lemma OccursAtTail(s: string, pat: string, j: int)
    requires s != [] && j >= 1
    ensures OccursAt(s[1..], pat, j - 1) == OccursAt(s, pat, j)
  {
    if 0 <= j - 1 <= |s| - 1 - |pat| {
      assert s[1..][j - 1..j - 1 + |pat|] == s[j..j + |pat|];
    }
  }

  /** `includes` holds exactly when some window of `s` equals `t`. */
  lemma {:induction false} ContainsIff(s: string, t: string)
    ensures Contains(s, t) <==> exists i :: OccursAt(s, t, i)
  {
    if t <= s {
      assert OccursAt(s, t, 0);
    } else if s == [] {
      assert |t| > 0;
    } else {
      ContainsIff(s[1..], t);
      if exists i :: OccursAt(s, t, i) {
        var i :| OccursAt(s, t, i);
        assert i != 0;
        OccursAtTail(s, t, i);
      }
      if Contains(s[1..], t) {
        var i :| OccursAt(s[1..], t, i);
        OccursAtTail(s, t, i + 1);
      }
    }
  }

  /** A text found in `a` is still found after anything is appended to `a`. */
  lemma {:induction false} ContainsExtendRight(a: string, b: string, t: string)
    requires Contains(a, t)
    ensures Contains(a + b, t)
  {
    if t <= a {
      assert t <= a + b;
    } else {
      assert (a + b)[1..] == a[1..] + b;
      ContainsExtendRight(a[1..], b, t);
    }
  }

  /** A text found in `b` is still found after anything is prepended to `b`. */
  lemma {:induction false} ContainsExtendLeft(a: string, b: string, t: string)
    requires Contains(b, t)
    ensures Contains(a + b, t)
  {
    if a != [] {
      assert (a + b)[1..] == a[1..] + b;
      ContainsExtendLeft(a[1..], b, t);
      assert Contains((a + b)[1..], t);
    } else {
      assert a + b == b;
    }
  }

  /** `s.indexOf(pat)` when `pat` occurs: the first window of `s` that equals `pat`. */
  function IndexOf(s: string, pat: string): (i: nat)
    requires Contains(s, pat)
    ensures OccursAt(s, pat, i)
    ensures forall j :: 0 <= j < i ==> !OccursAt(s, pat, j)
  {
    if pat <= s then
      assert OccursAt(s, pat, 0);
      0
    else
      var i := IndexOf(s[1..], pat);
      assert !OccursAt(s, pat, 0);
      assert forall j :: 1 <= j <= i ==> OccursAt(s, pat, j) == OccursAt(s[1..], pat, j - 1);
      i + 1
  }

  /** `s.replace(pat, rep)` with a string pattern: only the first occurrence is replaced. */
  function ReplaceFirst(s: string, pat: string, rep: string): (r: string)
    ensures !Contains(s, pat) ==> r == s
  {
    if pat <= s then rep + s[|pat|..]
    else if s == [] then s
    else [s[0]] + ReplaceFirst(s[1..], pat, rep)
  }

  /** Putting the first character back in front of slices of the tail. */
  lemma SliceTail(s: string, i: nat, j: nat)
    requires s != [] && i <= j <= |s| - 1
    ensures [s[0]] + s[1..][..i] == s[..i + 1]
    ensures s[1..][j..] == s[j + 1..]
  {
  }

  /** A splice in the tail is a splice one position further on in the whole. */
  lemma SpliceTail(s: string, pat: string, rep: string, i: nat, r: string)
    requires s != [] && i + |pat| <= |s| - 1
    requires r == s[1..][..i] + rep + s[1..][i + |pat|..]
    ensures [s[0]] + r == s[..i + 1] + rep + s[i + 1 + |pat|..]
  {
    SliceTail(s, i, i + |pat|);
    var x, y := s[1..][..i], s[1..][i + |pat|..];
    assert [s[0]] + (x + rep + y) == ([s[0]] + x) + rep + y;
  }

  /** A first occurrence past position 0 is a first occurrence of the tail, one position earlier. */
  lemma FirstOccurrenceTail(s: string, pat: string, i: nat)
    requires i >= 1 && OccursAt(s, pat, i)
    requires forall j :: 0 <= j < i ==> !OccursAt(s, pat, j)
    ensures s != [] && !(pat <= s)
    ensures OccursAt(s[1..], pat, i - 1)
    ensures forall j :: 0 <= j < i - 1 ==> !OccursAt(s[1..], pat, j)
  {
    assert !OccursAt(s, pat, 0);
    forall j | 0 <= j < i - 1 ensures !OccursAt(s[1..], pat, j) {
      OccursAtTail(s, pat, j + 1);
    }
    OccursAtTail(s, pat, i);
  }

  /** When `pat` does not start `s`, `replace` keeps the first character and works on the tail. */
  lemma ReplaceFirstTail(s: string, pat: string, rep: string)
    requires s != [] && !(pat <= s)
    ensures ReplaceFirst(s, pat, rep) == [s[0]] + ReplaceFirst(s[1..], pat, rep)
  {
  }

  /** When the first occurrence of `pat` is at `i`, `replace` splices `rep` in there and keeps
      the rest. */
  lemma {:induction false} ReplaceFirstAt(s: string, pat: string, rep: string, i: nat)
    requires OccursAt(s, pat, i)
    requires forall j :: 0 <= j < i ==> !OccursAt(s, pat, j)
    ensures ReplaceFirst(s, pat, rep) == s[..i] + rep + s[i + |pat|..]
  {
    if i == 0 {
      assert s[..0] == [] && pat <= s;
    } else {
      FirstOccurrenceTail(s, pat, i);
      ReplaceFirstAt(s[1..], pat, rep, i - 1);
      ReplaceFirstTail(s, pat, rep);
      SpliceTail(s, pat, rep, i - 1, ReplaceFirst(s[1..], pat, rep));
    }
  }

  /** When no occurrence of `pat` starts inside `p`, `replace` on `p + pat + m` swaps that
      occurrence: the windows starting inside `p` all lie in `p` followed by `pat` less its
      last character. */
  lemma ReplaceFirstLeading(p: string, pat: string, m: string, rep: string)
    requires pat != []
    requires !Contains(p + pat[..|pat| - 1], pat)
    ensures ReplaceFirst(p + pat + m, pat, rep) == p + rep + m
  {
    var s := p + pat + m;
    var head := p + pat[..|pat| - 1];
    assert s[|p|..|p| + |pat|] == pat;
    ContainsIff(head, pat);
    forall j | 0 <= j < |p| ensures !OccursAt(s, pat, j) {
      assert s[..|head|] == head;
      assert s[j..j + |pat|] == head[j..j + |pat|];
      assert !OccursAt(head, pat, j);
    }
    ReplaceFirstAt(s, pat, rep, |p|);
    assert s[..|p|] == p && s[|p| + |pat|..] == m;
  }

  /** One character read in front of the pieces of the rest of a text: the separator opens a
      new, empty first piece, any other character joins the first piece. */
  function PushChar(x: char, ps: seq<string>, c: char): (r: seq<string>)
    requires |ps| >= 1
    ensures |r| >= 1
  {
    if x == c then [""] + ps else [[x] + ps[0]] + ps[1..]
  }

  /** `s.split(c)` for a one-character separator: the pieces between separators, in order. */
  function Split(s: string, c: char): (r: seq<string>)
    ensures |r| >= 1
  {
    if s == [] then [""] else PushChar(s[0], Split(s[1..], c), c)
  }

  /** There is one piece more than there are separators, and no piece holds a separator. */
  lemma {:induction false} SplitPieces(s: string, c: char)
    ensures |Split(s, c)| == multiset(s)[c] + 1
    ensures forall k :: 0 <= k < |Split(s, c)| ==> c !in Split(s, c)[k]
  {
    if s != [] {
      SplitPieces(s[1..], c);
      assert s == [s[0]] + s[1..];
      var rest := Split(s[1..], c);
      var r := Split(s, c);
      if s[0] == c {
        forall k | 0 < k < |r| ensures c !in r[k] {
          assert r[k] == rest[k - 1];
        }
      } else {
        forall k | 0 < k < |r| ensures c !in r[k] {
          assert r[k] == rest[k];
        }
      }
    }
  }

  /** The pieces glued back together with `c` between neighbours (`ps.join(c)`). */
  function Join(ps: seq<string>, c: char): string
    requires |ps| >= 1
  {
    if |ps| == 1 then ps[0] else ps[0] + [c] + Join(ps[1..], c)
  }

  /** Splitting a text that starts with `x` reads `x` in front of the pieces of the rest. */
  lemma SplitCons(x: char, t: string, c: char)
    ensures Split([x] + t, c) == PushChar(x, Split(t, c), c)
  {
    assert ([x] + t)[1..] == t;
  }

  /** Joining after reading a character in front puts that character in front. */
  lemma JoinPushChar(x: char, ps: seq<string>, c: char)
    requires |ps| >= 1
    ensures Join(PushChar(x, ps, c), c) == [x] + Join(ps, c)
  {
    var qs := PushChar(x, ps, c);
    if x == c {
      assert qs[1..] == ps;
    } else if |ps| > 1 {
      assert qs[1..] == ps[1..];
      assert qs[0] + [c] + Join(ps[1..], c) == [x] + (ps[0] + [c] + Join(ps[1..], c));
    }
  }

  /** Joining the pieces of a split gives back the text. */
  lemma {:induction false} JoinSplit(s: string, c: char)
    ensures Join(Split(s, c), c) == s
  {
    if s != [] {
      JoinSplit(s[1..], c);
      JoinPushChar(s[0], Split(s[1..], c), c);
      assert s == [s[0]] + s[1..];
    }
  }

  /** Taking the first character off the left side of a concatenation. */
  lemma HeadOffLeft(a: string, m: string, b: string)
    requires a != []
    ensures a + m + b == [a[0]] + (a[1..] + m + b)
    ensures a == [a[0]] + a[1..]
  {
  }

  /** Reading a character in front commutes with appending more pieces. */
  lemma PushCharConcat(x: char, ps: seq<string>, qs: seq<string>, c: char)
    requires |ps| >= 1
    ensures PushChar(x, ps + qs, c) == PushChar(x, ps, c) + qs
  {
    if x != c {
      assert (ps + qs)[0] == ps[0];
      assert (ps + qs)[1..] == ps[1..] + qs;
    }
  }

  /** A separator splits the text into the pieces of its two sides. */
  lemma {:induction false} SplitConcat(a: string, b: string, c: char)
    ensures Split(a + [c] + b, c) == Split(a, c) + Split(b, c)
  {
    if a == [] {
      assert a + [c] + b == [c] + b;
      SplitCons(c, b, c);
    } else {
      HeadOffLeft(a, [c], b);
      SplitConcat(a[1..], b, c);
      SplitCons(a[0], a[1..] + [c] + b, c);
      SplitCons(a[0], a[1..], c);
      PushCharConcat(a[0], Split(a[1..], c), Split(b, c), c);
    }
  }

  /** Splitting a text free of the separator gives the text alone. */
  lemma {:induction false} SplitWithoutSeparator(s: string, c: char)
    requires c !in s
    ensures Split(s, c) == [s]
  {
    if s != [] {
      SplitWithoutSeparator(s[1..], c);
      assert [s[0]] + s[1..] == s;
    }
  }

  /** Splitting undoes joining, as long as no piece holds the separator. */
  lemma {:induction false} SplitJoin(ps: seq<string>, c: char)
    requires |ps| >= 1
    requires forall k :: 0 <= k < |ps| ==> c !in ps[k]
    ensures Split(Join(ps, c), c) == ps
  {
    SplitWithoutSeparator(ps[0], c);
    if |ps| > 1 {
      SplitJoin(ps[1..], c);
      SplitConcat(ps[0], Join(ps[1..], c), c);
    }
  }

  /** The decimal digit for `d`. */
  function DigitChar(d: nat): char
    requires d < 10
  {
    "0123456789"[d]
  }

  /** `n.toString()` for a non-negative integer: its decimal digits, most significant first. */
  function NatToString(n: nat): (r: string)
    ensures |r| >= 1
    ensures forall k :: 0 <= k < |r| ==> '0' <= r[k] <= '9'
  {
    if n < 10 then [DigitChar(n)] else NatToString(n / 10) + [DigitChar(n % 10)]
  }

  /** The value of a string of decimal digits, the reference reading of `NatToString`. */
  function ParseNat(s: string): nat
    requires forall k :: 0 <= k < |s| ==> '0' <= s[k] <= '9'
  {
    if s == [] then 0 else ParseNat(s[..|s| - 1]) * 10 + (s[|s| - 1] as int - '0' as int)
  }

  /** A digit character stands for its own value. */
  lemma DigitValue(d: nat)
    requires d < 10
    ensures DigitChar(d) as int - '0' as int == d
  {
  }

  /** Reading the digits back gives the number. */
  lemma {:induction false} ParseNatToString(n: nat)
    ensures ParseNat(NatToString(n)) == n
  {
    if n < 10 {
      DigitValue(n);
    } else {
      ParseNatToString(n / 10);
      DigitValue(n % 10);
      var s := NatToString(n);
      assert s[..|s| - 1] == NatToString(n / 10);
      assert s[|s| - 1] == DigitChar(n % 10);
      assert ParseNat(s) == ParseNat(NatToString(n / 10)) * 10 + n % 10;
    }
  }
}
