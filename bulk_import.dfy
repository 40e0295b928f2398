/** The bulk-import parser of the add-film screen: one film per non-blank line of the text,
    the comma-separated pieces of a line trimmed and read positionally as
    title, director, actors, genre, id number, year and tags. */
module BulkImport {
  import opened AsciiText
  import opened Films

  /** Every piece trimmed (`.map(item => item.trim())`). */
  function TrimAll(ps: seq<string>): seq<string> {
    seq(|ps|, k requires 0 <= k < |ps| => Trim(ps[k]))
  }

  /** Piece `k` of a line, or `""` when the line has fewer pieces (`piece || ""`). */
  function PieceOr(ps: seq<string>, k: nat): string {
    if k < |ps| then ps[k] else ""
  }

  /** `const [title, director, actors, genre, idNumber, year, tags] = pieces`, each `|| ""`;
      bulk rows never carry an image. */
  function DraftOfPieces(ps: seq<string>): FilmDraft {
    FilmDraft(PieceOr(ps, 0), PieceOr(ps, 1), PieceOr(ps, 2), PieceOr(ps, 3),
              PieceOr(ps, 4), PieceOr(ps, 5), PieceOr(ps, 6), "")
  }

  /** One line of the bulk text as a film draft. */
  function ParseLine(line: string): FilmDraft {
    DraftOfPieces(TrimAll(Split(line, ',')))
  }

  /** The seven text fields of a draft, in the order a bulk line lists them. */
  function Fields(d: FilmDraft): seq<string> {
    [d.title, d.director, d.actors, d.genre, d.idNumber, d.year, d.tags]
  }

  /** `text.split("\n").filter(line => line.trim() !== "")`. */
  function NonBlankLines(text: string): seq<string> {
    Filter(Split(text, '\n'), (l: string) => !IsBlank(l))
  }

  /** Each line parsed, in order. */
  function ParseLines(ls: seq<string>): seq<FilmDraft> {
    seq(|ls|, k requires 0 <= k < |ls| => ParseLine(ls[k]))
  }

  /** The drafts `handleBulkSubmit` passes to `addFilms`. */
  function ParseBulk(text: string): seq<FilmDraft> {
    ParseLines(NonBlankLines(text))
  }

  /** How many of the lines are not blank. */
  function CountNonBlank(ls: seq<string>): nat {
    if ls == [] then 0 else (if IsBlank(ls[0]) then 0 else 1) + CountNonBlank(ls[1..])
  }

  // ------------------------------------------------------------------ lines

  /** Reading a line joined from comma-free pieces: piece `k` trimmed is field `k`, a field with
      no piece is empty, pieces after the seventh are dropped, and the image is always empty. */
  lemma ParseJoinedLine(ps: seq<string>)
    requires |ps| >= 1
    requires forall k :: 0 <= k < |ps| ==> ',' !in ps[k]
    ensures ParseLine(Join(ps, ',')) == DraftOfPieces(TrimAll(ps))
    ensures ParseLine(Join(ps, ',')).imageUrl == ""
    ensures forall k :: 0 <= k < 7 ==> PieceOr(TrimAll(ps), k) == Trim(PieceOr(ps, k))
  {
    SplitJoin(ps, ',');
    forall k | 0 <= k < 7 ensures PieceOr(TrimAll(ps), k) == Trim(PieceOr(ps, k)) {
      if k >= |ps| {
        assert Trim("") == "";
      }
    }
  }

  /** Trimming pieces that are already trimmed changes nothing. */
  lemma TrimAllTrimmed(ps: seq<string>)
    requires forall k :: 0 <= k < |ps| ==> Trimmed(ps[k])
    ensures TrimAll(ps) == ps
  {
    forall k | 0 <= k < |ps| ensures TrimAll(ps)[k] == ps[k] {
      TrimIsTrimmed(ps[k]);
    }
  }

  /** A draft is read back from its seven fields. */
  lemma DraftOfFields(d: FilmDraft)
    requires d.imageUrl == ""
    ensures DraftOfPieces(Fields(d)) == d
  {
  }

  /** The text of comma-free, already trimmed fields joined by commas is read back as the same
      draft. */
  lemma ParseLineRoundTrip(d: FilmDraft)
    requires d.imageUrl == ""
    requires forall k :: 0 <= k < |Fields(d)| ==> ',' !in Fields(d)[k] && Trimmed(Fields(d)[k])
    ensures ParseLine(Join(Fields(d), ',')) == d
  {
    ParseJoinedLine(Fields(d));
    TrimAllTrimmed(Fields(d));
    DraftOfFields(d);
  }

  /** Trimming piece by piece distributes over concatenation. */
  lemma TrimAllConcat(a: seq<string>, b: seq<string>)
    ensures TrimAll(a + b) == TrimAll(a) + TrimAll(b)
  {
  }

  /** Only the first seven pieces are read. */
  lemma DraftOfLongPieces(ps: seq<string>, qs: seq<string>)
    requires |ps| >= 7
    ensures DraftOfPieces(ps + qs) == DraftOfPieces(ps)
  {
    assert forall k :: 0 <= k < 7 ==> (ps + qs)[k] == ps[k];
  }

  /** Everything after the seventh piece is ignored: there is no quoting, so a value holding a
      comma pushes the later values out of their fields. */
  lemma ExtraPiecesIgnored(line: string, rest: string)
    requires |Split(line, ',')| >= 7
    ensures ParseLine(line + "," + rest) == ParseLine(line)
  {
    SplitConcat(line, rest, ',');
    TrimAllConcat(Split(line, ','), Split(rest, ','));
    DraftOfLongPieces(TrimAll(Split(line, ',')), TrimAll(Split(rest, ',')));
  }

  /** A line of two comma-free pieces fills the title and the director and nothing else. */
  lemma ParseTwoPieces(x: string, y: string)
    requires ',' !in x && ',' !in y
    ensures ParseLine(x + "," + y) == FilmDraft(Trim(x), Trim(y), "", "", "", "", "", "")
  {
    ParseJoinedLine([x, y]);
    assert Join([x, y], ',') == x + "," + y;
    assert Trim("") == "";
  }

  /** A line whose first piece is blank gives a draft with an empty title: the parser demands
      no field, so `", X"` is a film titled `""` directed by `X`. */
  lemma EmptyTitleAccepted(x: string, rest: string)
    requires IsBlank(x) && ',' !in x && ',' !in rest
    ensures ParseLine(x + "," + rest) == FilmDraft("", Trim(rest), "", "", "", "", "", "")
    ensures ParseLine(", X") == FilmDraft("", "X", "", "", "", "", "", "")
  {
    ParseTwoPieces(x, rest);
    ParseTwoPieces("", " X");
    assert "" + "," + " X" == ", X";
  }

  /** A line of seven comma-free pieces gives the seven trimmed pieces, in order. */
  lemma ParseSevenPieces(ps: seq<string>)
    requires |ps| == 7
    requires forall k :: 0 <= k < 7 ==> ',' !in ps[k]
    ensures ParseLine(Join(ps, ',')) ==
      FilmDraft(Trim(ps[0]), Trim(ps[1]), Trim(ps[2]), Trim(ps[3]), Trim(ps[4]), Trim(ps[5]), Trim(ps[6]), "")
  {
    ParseJoinedLine(ps);
  }

  /** The pieces of the on-screen example, trimmed. */
  lemma ExampleTrims()
    ensures Trim("A") == "A" && Trim(" B") == "B" && Trim(" C") == "C" && Trim(" Drama") == "Drama"
    ensures Trim(" 001") == "001" && Trim(" 2000") == "2000" && Trim(" tag1") == "tag1"
  {
  }

  /** The on-screen example `A, B, C, Drama, 001, 2000, tag1`, written as its pieces joined by
      commas. */
  lemma ExampleLine()
    ensures ParseLine(Join(["A", " B", " C", " Drama", " 001", " 2000", " tag1"], ','))
              == FilmDraft("A", "B", "C", "Drama", "001", "2000", "tag1", "")
  {
    ParseSevenPieces(["A", " B", " C", " Drama", " 001", " 2000", " tag1"]);
    ExampleTrims();
  }

  // ------------------------------------------------------------------ the text

  /** Filtering keeps as many lines as are not blank. */
  lemma {:induction false} CountFiltered(ls: seq<string>)
    ensures |Filter(ls, (l: string) => !IsBlank(l))| == CountNonBlank(ls)
  {
    if ls != [] {
      CountFiltered(ls[1..]);
    }
  }

  /** One record per non-blank line, every record read from a non-blank line of the text, in the
      order of the text, and every non-blank line read. */
  lemma ParseBulkLines(text: string)
    ensures |ParseBulk(text)| == CountNonBlank(Split(text, '\n'))
    ensures forall l :: l in NonBlankLines(text) <==> l in Split(text, '\n') && !IsBlank(l)
    ensures IsSubsequence(NonBlankLines(text), Split(text, '\n'))
    ensures forall k :: 0 <= k < |ParseBulk(text)| ==> ParseBulk(text)[k] == ParseLine(NonBlankLines(text)[k])
  {
    CountFiltered(Split(text, '\n'));
  }

  /** Lines that hold no newline and are not blank are read one record each, in order. */
  lemma ParseJoinedLines(ls: seq<string>)
    requires |ls| >= 1
    requires forall k :: 0 <= k < |ls| ==> '\n' !in ls[k] && !IsBlank(ls[k])
    ensures ParseBulk(Join(ls, '\n')) == ParseLines(ls)
  {
    SplitJoin(ls, '\n');
  }

  /** A blank line between two parts of the text changes nothing. */
  lemma BlankLineIgnored(a: string, blank: string, b: string)
    requires IsBlank(blank) && '\n' !in blank
    ensures ParseBulk(a + "\n" + blank + "\n" + b) == ParseBulk(a + "\n" + b)
  {
    var nb := (l: string) => !IsBlank(l);
    assert a + "\n" + blank + "\n" + b == a + ['\n'] + (blank + ['\n'] + b);
    SplitConcat(a, blank + ['\n'] + b, '\n');
    SplitConcat(blank, b, '\n');
    SplitWithoutSeparator(blank, '\n');
    SplitConcat(a, b, '\n');
    FilterConcat(Split(a, '\n'), [blank] + Split(b, '\n'), nb);
    FilterConcat([blank], Split(b, '\n'), nb);
    FilterConcat(Split(a, '\n'), Split(b, '\n'), nb);
  }
}
