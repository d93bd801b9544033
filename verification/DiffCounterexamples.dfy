/**
 Patches that the parser gets wrong: an added line that looks like a file header is lost
 (crates/ajax-core/src/diff_review.rs:433-441), a blank context line at the end is lost and the last line
 loses the blanks at its end (crates/ajax-core/src/diff_review.rs:372), a line loses a carriage return at
 its end (crates/ajax-core/src/diff_review.rs:401), and an added line that quotes git's extended header
 changes the status (crates/ajax-core/src/diff_review.rs:407-416).
 */
module DiffCounterexamples {
  import opened Options
  import opened DiffParser
  import opened DiffPrinting
  import opened DiffRoundTrip
  import opened DiffExactness
  import opened DiffStatus
  import Text

  /** A patch of file x with one hunk of one line. */
  function Sample(line: string): PatchFile {
    PatchFile("x", "x", ["index 1..2"], [DiffHunk("@@ -1 +1 @@", [line])])
  }

  lemma {:induction false} SampleIsPrintable(line: string)
    requires IsPlainLine(line)
    ensures IsPrintable(Sample(line))
    ensures HunkLines(Sample(line).hunks) == ["@@ -1 +1 @@", line]
  {
    var f := Sample(line);
    assert f.meta[0][0] == 'i' && FILE_HEADER[0] == 'd' && HUNK_HEADER[0] == '@';
    assert HunkLines(f.hunks[1..]) == [];
  }

  lemma {:induction false} SampleParses(line: string)
    requires IsPlainLine(line)
    ensures Parsed(PrintPatch([Sample(line)])) == [Reported(Sample(line), true)]
  {
    SampleIsPrintable(line);
    PrintedAlone([Sample(line)]);
    OneReported(Sample(line));
  }

  lemma {:induction false} OneReported(f: PatchFile)
    ensures AllReported([f]) == [Reported(f, true)]
  {
  }

  function OneHunk(lines: seq<string>): seq<DiffHunk> {
    [DiffHunk("@@ -1 +1 @@", lines)]
  }

  /** What is reported of the sample's hunk, given what trimming leaves of its line. */
  lemma {:induction false} SampleHunks(line: string)
    ensures ReportedHunks(Sample(line).hunks, true)
         == if Text.IsBlank(line) then OneHunk([])
            else OneHunk(Kept([WithoutCarriageReturn(Text.TrimEnd(line))]))
  {
    var header: string := "@@ -1 +1 @@";
    var h := DiffHunk(header, [line]);
    assert [line][..0] == [] && [h][..0] == [] && TrimLines([]) == [];
    TrimEndVisible(header);
    assert EndsVisibly(header) && IsHunkStart(header) && WithoutCarriageReturn(header) == header;
    var left := TrimLines([line]);
    assert left == if Text.IsBlank(line) then [] else [Text.TrimEnd(line)];
    assert TrimHunks([h]) == [] + TrimHunk(h) == OneHunk(left);
    SeenOne(Text.TrimEnd(line));
    var seen := DiffHunk(header, Seen(left));
    assert OneHunk(left)[1..] == [] && SeenHunks(OneHunk(left)) == [seen] + SeenHunks([]);
    assert [seen][1..] == [] && KeptHunks([seen]) == [seen.(lines := Kept(seen.lines))] + KeptHunks([]);
  }

  const HEADER_LIKE: string := "+++x"
  const QUOTE: string := "+new file mode"

  lemma {:induction false} AddedLines()
    ensures IsPlainLine(HEADER_LIKE) && EndsVisibly(HEADER_LIKE) && !IsKept(HEADER_LIKE)
    ensures IsPlainLine(QUOTE) && EndsVisibly(QUOTE)
  {
    assert HEADER_LIKE[0] == '+' && QUOTE[0] == '+' && FILE_HEADER[0] == 'd' && HUNK_HEADER[0] == '@';
    assert " "[0] == ' ' && "-"[0] == '-';
  }

  lemma {:induction false} EmptyCounts()
    ensures CountIn(OneHunk([]), '+') == 0
  {
    assert OneHunk([])[..0] == [] && CountIn(OneHunk([]), '+') == CountIn([], '+') + CountOf([], '+');
  }

  /** The text "++x", added: its line is neither kept nor counted. */
  lemma {:induction false} HeaderLikeLineIsLost()
    ensures
      var parsed := Parsed(PrintPatch([Sample(HEADER_LIKE)]));
      |parsed| == 1 && parsed[0].hunks == OneHunk([]) && parsed[0].additions == 0
  {
    AddedLines();
    SampleParses(HEADER_LIKE);
    HeaderLikeDropped();
    EmptyCounts();
  }

  lemma {:induction false} HeaderLikeDropped()
    ensures ReportedHunks(Sample(HEADER_LIKE).hunks, true) == OneHunk([])
  {
    AddedLines();
    SampleHunks(HEADER_LIKE);
    TrimEndVisible(HEADER_LIKE);
    TrimEndBlank(HEADER_LIKE);
    assert Text.IsWhitespace('\r');
    assert WithoutCarriageReturn(HEADER_LIKE) == HEADER_LIKE;
    assert [HEADER_LIKE][..0] == [] && Kept([HEADER_LIKE]) == [];
  }

  const PADDED: string := "+x "
  const PLAIN: string := "+x"

  lemma {:induction false} PaddedLine()
    ensures IsPlainLine(PADDED) && IsKept(PADDED) && Text.TrimEnd(PADDED) == PLAIN && !Text.IsBlank(PADDED)
    ensures IsPlainLine(" ") && IsKept(" ") && Text.IsBlank(" ")
    ensures Kept([PLAIN]) == [PLAIN] && WithoutCarriageReturn(PLAIN) == PLAIN && PADDED != PLAIN
  {
    assert PADDED[0] == '+' && PLAIN[0] == '+' && FILE_HEADER[0] == 'd' && HUNK_HEADER[0] == '@' && " "[0] == ' ';
    assert PADDED[1] == 'x' && "+++"[1] == '+' && "---"[0] == '-';
    assert PADDED[..2] == PLAIN && PLAIN[..1] == "+";
    assert Text.TrimEnd(PLAIN) == PLAIN;
    assert [PLAIN][..0] == [];
  }

  /** The text "x ", added at the end of the patch, comes back as "x", although its line is one the parser keeps. */
  lemma {:induction false} TrailingBlankIsLost()
    ensures IsKept(PADDED)
    ensures
      var parsed := Parsed(PrintPatch([Sample(PADDED)]));
      |parsed| == 1 && parsed[0].hunks == OneHunk([PLAIN])
  {
    PaddedLine();
    SampleParses(PADDED);
    SampleHunks(PADDED);
  }

  /** A blank context line at the end of the patch is lost altogether. */
  lemma {:induction false} BlankContextIsLost()
    ensures IsKept(" ")
    ensures
      var parsed := Parsed(PrintPatch([Sample(" ")]));
      |parsed| == 1 && parsed[0].hunks == OneHunk([])
  {
    PaddedLine();
    SampleParses(" ");
    SampleHunks(" ");
  }

  const WITH_RETURN: string := "+x\r"

  /** The text "x" and a carriage return, added anywhere but at the end, comes back without it. */
  lemma {:induction false} CarriageReturnIsLost(files: seq<PatchFile>, i: nat)
    requires forall f :: f in files ==> IsPrintable(f)
    requires i + 1 < |files| && files[i].hunks == OneHunk([WITH_RETURN])
    ensures IsKept(WITH_RETURN)
    ensures |Parsed(PrintPatch(files))| == |files| && Parsed(PrintPatch(files))[i].hunks == OneHunk([PLAIN])
  {
    PrintedAlone(files);
    StrippedHunk();
    assert AllReported(files)[i] == Reported(files[i], false);
  }

  lemma {:induction false} StrippedHunk()
    ensures IsKept(WITH_RETURN)
    ensures ReportedHunks(OneHunk([WITH_RETURN]), false) == OneHunk([PLAIN])
  {
    PaddedLine();
    ReturnStripped();
    SeenOne(WITH_RETURN);
    var header: string := "@@ -1 +1 @@";
    assert WithoutCarriageReturn(header) == header;
    var seen := DiffHunk(header, [PLAIN]);
    assert OneHunk([WITH_RETURN])[1..] == [] && SeenHunks(OneHunk([WITH_RETURN])) == [seen] + SeenHunks([]);
    assert [seen][1..] == [] && KeptHunks([seen]) == [seen.(lines := Kept([PLAIN]))] + KeptHunks([]);
  }

  lemma {:induction false} ReturnStripped()
    ensures IsKept(WITH_RETURN) && WithoutCarriageReturn(WITH_RETURN) == PLAIN
  {
    assert WITH_RETURN[0] == '+' && WITH_RETURN[1] == 'x' && "+++"[1] == '+';
    assert WITH_RETURN[..2] == PLAIN;
  }

  lemma {:induction false} NothingDeclared(line: string)
    ensures DeclaredStatus(Sample(line).meta) == "modified"
  {
    var meta := Sample(line).meta[0];
    assert meta[0] == 'i' && NEW_FILE[0] == 'n' && DELETED_FILE[0] == 'd' && RENAME[0] == 'r';
  }

  lemma {:induction false} QuoteShown()
    ensures Shows(BodyLines(Sample(QUOTE)), NEW_FILE)
  {
    var body := BodyLines(Sample(QUOTE));
    AddedLines();
    SampleIsPrintable(QUOTE);
    assert body == ["index 1..2"] + ["@@ -1 +1 @@", QUOTE] && body[2] == QUOTE;
    assert QUOTE[1..] == NEW_FILE;
    assert QUOTE in body && Contains(QUOTE, NEW_FILE);
  }

  /** The text "new file mode", added to a file that was there: the file is reported as new. */
  lemma {:induction false} QuotedMarkChangesStatus()
    ensures DeclaredStatus(Sample(QUOTE).meta) == "modified"
    ensures
      var parsed := Parsed(PrintPatch([Sample(QUOTE)]));
      |parsed| == 1 && parsed[0].status == "added"
  {
    AddedLines();
    SampleParses(QUOTE);
    NothingDeclared(QUOTE);
    QuoteShown();
    StatusArrives(Sample(QUOTE), true);
    StatusByLine(BodyLines(Sample(QUOTE)));
  }
}
