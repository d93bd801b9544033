/**
 Printing a patch and parsing it back (crates/ajax-core/src/diff_review.rs:371-470).

 On the way the end of the text is trimmed, and with it the last lines of the last file; every line loses a
 carriage return at its end; and body lines that start with none of the three signs are dropped.
 */
module DiffRoundTrip {
  import opened Options
  import opened DiffParser
  import opened DiffPrinting
  import opened Sequences
  import Text

  /** A file of a patch: the two paths of its header, other lines before its hunks, and the hunks. */
  datatype PatchFile = PatchFile(oldPath: string, path: string, meta: seq<string>, hunks: seq<DiffHunk>)

  function HeaderLine(f: PatchFile): string {
    FILE_HEADER + ("a/" + f.oldPath + " b/" + f.path)
  }

  function HunkLines(hunks: seq<DiffHunk>): seq<string> {
    if hunks == [] then [] else [hunks[0].header] + (hunks[0].lines + HunkLines(hunks[1..]))
  }

  function BodyLines(f: PatchFile): seq<string> {
    f.meta + HunkLines(f.hunks)
  }

  function FileLines(f: PatchFile): seq<string> {
    [HeaderLine(f)] + BodyLines(f)
  }

  function PatchLines(files: seq<PatchFile>): seq<string> {
    if files == [] then [] else FileLines(files[0]) + PatchLines(files[1..])
  }

  function PrintPatch(files: seq<PatchFile>): string {
    Joined(PatchLines(files))
  }

  predicate IsPlainLine(line: string) {
    IsOneLine(line) && !EndsBody(line)
  }

  predicate HasNoWhitespace(s: string) {
    forall c :: c in s ==> !Text.IsWhitespace(c)
  }

  predicate IsPrintableHunk(h: DiffHunk) {
    && IsOneLine(h.header) && HUNK_HEADER <= h.header
    && forall line :: line in h.lines ==> IsPlainLine(line)
  }

  /** Paths without whitespace, hunk headers that look like it, and no line that could pass for a header. */
  predicate IsPrintable(f: PatchFile) {
    && HasNoWhitespace(f.oldPath) && HasNoWhitespace(f.path)
    && (forall line :: line in f.meta ==> IsPlainLine(line))
    && (forall h :: h in f.hunks ==> IsPrintableHunk(h))
  }

  // What arrives of a file, and what is reported.

  /** The hunks without the body lines that are dropped. */
  function KeptHunks(hunks: seq<DiffHunk>): seq<DiffHunk> {
    if hunks == [] then [] else [hunks[0].(lines := Kept(hunks[0].lines))] + KeptHunks(hunks[1..])
  }

  function SeenHunk(h: DiffHunk): DiffHunk {
    DiffHunk(WithoutCarriageReturn(h.header), Seen(h.lines))
  }

  /** The hunks without carriage returns at the ends of their lines. */
  function SeenHunks(hunks: seq<DiffHunk>): seq<DiffHunk> {
    if hunks == [] then [] else [SeenHunk(hunks[0])] + SeenHunks(hunks[1..])
  }

  /** What trimming leaves of a last hunk, if it is still one. */
  function TrimHunk(h: DiffHunk): seq<DiffHunk> {
    if TrimLines(h.lines) != [] then [DiffHunk(h.header, TrimLines(h.lines))]
    else if IsHunkStart(Text.TrimEnd(h.header)) then [DiffHunk(Text.TrimEnd(h.header), [])]
    else []
  }

  function TrimHunks(hunks: seq<DiffHunk>): seq<DiffHunk> {
    if hunks == [] then [] else hunks[..|hunks| - 1] + TrimHunk(hunks[|hunks| - 1])
  }

  /** The lines after the header that reach the parser: trimming takes from the last file only. */
  function ArrivedBody(f: PatchFile, isLast: bool): seq<string> {
    if isLast then TrimLines(BodyLines(f)) else BodyLines(f)
  }

  function ReportedHunks(hunks: seq<DiffHunk>, isLast: bool): seq<DiffHunk> {
    KeptHunks(SeenHunks(if isLast then TrimHunks(hunks) else hunks))
  }

  /** What parsing reports for the file. */
  function Reported(f: PatchFile, isLast: bool): DiffFile {
    var hunks := ReportedHunks(f.hunks, isLast);
    DiffFile(f.path, StatusOf(Joined(Seen(ArrivedBody(f, isLast)))), CountIn(hunks, '+'), CountIn(hunks, '-'), hunks)
  }

  function AllReported(files: seq<PatchFile>): seq<DiffFile> {
    seq(|files|, i requires 0 <= i < |files| => Reported(files[i], i == |files| - 1))
  }

  // The header.

  lemma {:induction false} WordsOfHeader(a: string, b: string)
    requires HasNoWhitespace(a) && HasNoWhitespace(b) && a != [] && b != []
    ensures Words(a + " " + b) == [a, b]
  {
    var s := a + " " + b;
    WordEnds(a, " " + b);
    assert s == a + (" " + b);
    assert s[..|a|] == a && s[|a|..] == " " + b;
    assert a[0] in a && b[0] in b;
    assert (" " + b)[1..] == b;
    WordEnds(b, []);
    assert b + [] == b && b[..|b|] == b && b[|b|..] == [];
    assert Words(b) == [b] + Words([]);
    assert Words(" " + b) == Words(b);
  }

  lemma {:induction false} WordEnds(word: string, rest: string)
    requires HasNoWhitespace(word) && (rest == [] || Text.IsWhitespace(rest[0]))
    ensures WordLength(word + rest) == |word|
  {
    if word == [] {
      assert word + rest == rest;
    } else {
      assert (word + rest)[1..] == word[1..] + rest;
      assert word[0] in word;
      WordEnds(word[1..], rest);
    }
  }

  lemma {:induction false} HeaderPath(f: PatchFile)
    requires IsPrintable(f)
    ensures ExtractPath(WithoutPrefix(HeaderLine(f), FILE_HEADER)) == Some(f.path)
  {
    var a, b := "a/" + f.oldPath, "b/" + f.path;
    assert WithoutPrefix(HeaderLine(f), FILE_HEADER) == "a/" + f.oldPath + " b/" + f.path;
    assert "a/" + f.oldPath + " b/" + f.path == a + " " + b;
    assert forall c :: c in a ==> c == 'a' || c == '/' || c in f.oldPath;
    assert forall c :: c in b ==> c == 'b' || c == '/' || c in f.path;
    WordsOfHeader(a, b);
    assert b[2..] == f.path;
  }

  lemma {:induction false} HeaderIsVisibleLine(f: PatchFile)
    requires IsPrintable(f)
    ensures IsOneLine(HeaderLine(f)) && EndsVisibly(HeaderLine(f))
  {
    var line := HeaderLine(f);
    assert Text.IsWhitespace('\n');
    assert forall c :: c in line ==> c in FILE_HEADER || c in "a/" || c in f.oldPath || c in " b/" || c in f.path;
    assert forall c :: c in FILE_HEADER || c in "a/" || c in " b/" ==> c != '\n';
    assert line[|line| - 1] == if f.path == [] then " b/"[2] else f.path[|f.path| - 1];
  }

  // Hunks.

  lemma {:induction false} BodyLengthIs(body: seq<string>, rest: seq<string>)
    requires forall line :: line in body ==> !EndsBody(line)
    requires rest == [] || EndsBody(rest[0])
    ensures BodyLength(body + rest) == |body|
  {
    if body == [] {
      assert body + rest == rest;
    } else {
      assert (body + rest)[1..] == body[1..] + rest;
      assert body[0] in body;
      BodyLengthIs(body[1..], rest);
    }
  }

  lemma {:induction false} HunksOfLines(hunks: seq<DiffHunk>)
    requires forall h :: h in hunks ==> IsPrintableHunk(h)
    ensures Hunks(HunkLines(hunks)) == KeptHunks(hunks)
    ensures HunkLines(hunks) == [] || EndsBody(HunkLines(hunks)[0])
  {
    if hunks != [] {
      var h, rest := hunks[0], HunkLines(hunks[1..]);
      assert h in hunks;
      HunksOfLines(hunks[1..]);
      BodyLengthIs(h.lines, rest);
      var lines := HunkLines(hunks);
      assert lines[0] == h.header && lines[1..] == h.lines + rest;
      assert (h.lines + rest)[..|h.lines|] == h.lines && (h.lines + rest)[|h.lines|..] == rest;
    }
  }

  lemma {:induction false} HunksAfterMeta(meta: seq<string>, rest: seq<string>)
    requires forall line :: line in meta ==> !EndsBody(line)
    ensures Hunks(meta + rest) == Hunks(rest)
  {
    if meta == [] {
      assert meta + rest == rest;
    } else {
      assert (meta + rest)[1..] == meta[1..] + rest;
      assert meta[0] in meta;
      HunksAfterMeta(meta[1..], rest);
    }
  }

  lemma {:induction false} HunkLinesAppended(init: seq<DiffHunk>, h: DiffHunk)
    ensures HunkLines(init + [h]) == HunkLines(init) + ([h.header] + h.lines)
  {
    if init == [] {
      assert init + [h] == [h] && [h][1..] == [];
      assert h.lines + HunkLines([]) == h.lines;
    } else {
      var x, tail := init[0], [h.header] + h.lines;
      assert (init + [h])[1..] == init[1..] + [h];
      HunkLinesAppended(init[1..], h);
      Associative(x.lines, HunkLines(init[1..]), tail);
      Associative([x.header], x.lines + HunkLines(init[1..]), tail);
    }
  }

  lemma {:induction false} KeptHunksAppended(init: seq<DiffHunk>, h: DiffHunk)
    ensures KeptHunks(init + [h]) == KeptHunks(init) + [h.(lines := Kept(h.lines))]
  {
    if init == [] {
      assert init + [h] == [h] && [h][1..] == [];
    } else {
      assert (init + [h])[1..] == init[1..] + [h];
      KeptHunksAppended(init[1..], h);
    }
  }

  /** A line that belongs to no hunk's header and is not kept changes nothing at the end. */
  lemma {:induction false} DroppedTail(hunks: seq<DiffHunk>, line: string)
    requires forall h :: h in hunks ==> IsPrintableHunk(h)
    requires IsPlainLine(line) && !IsKept(line)
    ensures Hunks(HunkLines(hunks) + [line]) == KeptHunks(hunks)
  {
    if hunks == [] {
      HunksAfterMeta([line], []);
      assert HunkLines(hunks) + [line] == [line] + [];
    } else {
      var init, h := hunks[..|hunks| - 1], hunks[|hunks| - 1];
      var longer := h.(lines := h.lines + [line]);
      InitAndLast(hunks);
      assert h in hunks && forall x :: x in init ==> x in hunks;
      HunkLinesAppended(init, h);
      HunkLinesAppended(init, longer);
      Associative([h.header], h.lines, [line]);
      Associative(HunkLines(init), [h.header] + h.lines, [line]);
      HunksOfLines(init + [longer]);
      assert (h.lines + [line])[..|h.lines|] == h.lines;
      assert Kept(h.lines + [line]) == Kept(h.lines);
      KeptHunksAppended(init, h);
      KeptHunksAppended(init, longer);
    }
  }

  // Carriage returns.

  lemma {:induction false} StripKeepsPrefix(line: string, p: string)
    requires '\r' !in p
    ensures p <= WithoutCarriageReturn(line) <==> p <= line
  {
    var s := WithoutCarriageReturn(line);
    if p <= line && |p| == |line| && p != [] {
      assert p[|p| - 1] in p && p[|p| - 1] == line[|line| - 1];
    }
    assert s <= line;
    assert p <= line && |p| <= |s| ==> p <= s;
  }

  lemma {:induction false} StripKeepsPlain(line: string)
    ensures EndsBody(WithoutCarriageReturn(line)) <==> EndsBody(line)
    ensures IsOneLine(line) ==> IsOneLine(WithoutCarriageReturn(line))
    ensures IsHunkStart(WithoutCarriageReturn(line)) <==> IsHunkStart(line)
  {
    StripKeepsPrefix(line, HUNK_HEADER);
    StripKeepsPrefix(line, FILE_HEADER);
  }

  lemma {:induction false} SeenLine(lines: seq<string>, line: string)
    requires line in Seen(lines)
    ensures exists l :: l in lines && line == WithoutCarriageReturn(l)
  {
    if line == WithoutCarriageReturn(lines[0]) {
      assert lines[0] in lines;
    } else {
      SeenLine(lines[1..], line);
      var l :| l in lines[1..] && line == WithoutCarriageReturn(l);
      assert l in lines;
    }
  }

  lemma {:induction false} SeenStaysPlain(lines: seq<string>)
    requires forall line :: line in lines ==> IsPlainLine(line)
    ensures forall line :: line in Seen(lines) ==> IsPlainLine(line)
  {
    forall line | line in Seen(lines)
      ensures IsPlainLine(line)
    {
      SeenLine(lines, line);
      var l :| l in lines && line == WithoutCarriageReturn(l);
      StripKeepsPlain(l);
    }
  }

  lemma {:induction false} SeenStaysPrintable(hunks: seq<DiffHunk>)
    requires forall h :: h in hunks ==> IsPrintableHunk(h)
    ensures forall h :: h in SeenHunks(hunks) ==> IsPrintableHunk(h)
    ensures Seen(HunkLines(hunks)) == HunkLines(SeenHunks(hunks))
  {
    if hunks != [] {
      var h := hunks[0];
      assert h in hunks;
      SeenStaysPrintable(hunks[1..]);
      SeenStaysPlain(h.lines);
      StripKeepsPlain(h.header);
      SeenSplits([h.header], h.lines + HunkLines(hunks[1..]));
      SeenSplits(h.lines, HunkLines(hunks[1..]));
      assert Seen([h.header]) == [WithoutCarriageReturn(h.header)] + Seen([h.header][1..]) && [h.header][1..] == [];
    }
  }

  /** The hunks found in the lines of a file that arrive whole. */
  lemma {:induction false} WholeHunks(meta: seq<string>, hunks: seq<DiffHunk>)
    requires forall line :: line in meta ==> IsPlainLine(line)
    requires forall h :: h in hunks ==> IsPrintableHunk(h)
    ensures Hunks(Seen(meta + HunkLines(hunks))) == KeptHunks(SeenHunks(hunks))
  {
    SeenSplits(meta, HunkLines(hunks));
    SeenStaysPlain(meta);
    SeenStaysPrintable(hunks);
    HunksAfterMeta(Seen(meta), Seen(HunkLines(hunks)));
    HunksOfLines(SeenHunks(hunks));
  }

  // Trimming the last file.

  lemma {:induction false} TrimStaysPlain(lines: seq<string>)
    requires forall line :: line in lines ==> IsPlainLine(line)
    ensures forall line :: line in TrimLines(lines) ==> IsPlainLine(line)
  {
    forall line | line in TrimLines(lines)
      ensures IsPlainLine(line)
    {
      TrimLinesShorten(lines, line);
      var whole :| whole in lines && line <= whole;
      assert HUNK_HEADER <= line ==> HUNK_HEADER <= whole;
      assert FILE_HEADER <= line ==> FILE_HEADER <= whole;
    }
  }

  lemma {:induction false} TrimOne(line: string)
    requires !Text.IsBlank(line)
    ensures TrimLines([line]) == [Text.TrimEnd(line)]
  {
    assert [line][..0] == [];
  }

  lemma {:induction false} HeaderIsNotBlank(header: string)
    requires IsHunkStart(header)
    ensures !Text.IsBlank(header) && Text.TrimEnd(header) != [] && Text.TrimEnd(header)[0] == '@'
  {
    assert header[0] == HUNK_HEADER[0] == '@' && header[0] in header;
    TrimEndBlank(header);
  }

  /** A header that trimming has made something else is a line like any other. */
  lemma {:induction false} FormerHeader(header: string)
    requires IsOneLine(header) && IsHunkStart(header) && !IsHunkStart(Text.TrimEnd(header))
    ensures IsPlainLine(Text.TrimEnd(header)) && !IsKept(Text.TrimEnd(header))
  {
    HeaderIsNotBlank(header);
    assert FILE_HEADER[0] == 'd' && "+"[0] == '+' && "-"[0] == '-' && " "[0] == ' ';
  }

  /** The lines of a trimmed last hunk: those of what is left of it, or its header become a plain line. */
  lemma {:induction false} TrimmedHunkLines(h: DiffHunk)
    requires IsPrintableHunk(h)
    ensures TrimLines([h.header] + h.lines) ==
      if TrimHunk(h) != [] then [TrimHunk(h)[0].header] + TrimHunk(h)[0].lines else [Text.TrimEnd(h.header)]
    ensures forall x :: x in TrimHunk(h) ==> IsPrintableHunk(x)
  {
    HeaderIsNotBlank(h.header);
    TrimAppended([h.header], h.lines);
    TrimOne(h.header);
    TrimmedHunkIsPrintable(h);
  }

  lemma {:induction false} TrimmedHunkIsPrintable(h: DiffHunk)
    requires IsPrintableHunk(h)
    ensures forall x :: x in TrimHunk(h) ==> IsPrintableHunk(x)
  {
    TrimStaysPlain(h.lines);
    assert Text.TrimEnd(h.header) <= h.header;
  }

  lemma {:induction false} VisibleIsSeen(line: string)
    requires EndsVisibly(line)
    ensures Seen([line]) == [line]
  {
    assert Text.IsWhitespace('\r') && [line][1..] == [];
  }

  /** The hunks found in the trimmed lines of a last file with hunks. */
  lemma {:induction false} TrimmedHunks(meta: seq<string>, hunks: seq<DiffHunk>)
    requires forall line :: line in meta ==> IsPlainLine(line)
    requires forall h :: h in hunks ==> IsPrintableHunk(h)
    requires hunks != []
    ensures Hunks(Seen(TrimLines(meta + HunkLines(hunks)))) == KeptHunks(SeenHunks(TrimHunks(hunks)))
  {
    var init, h := hunks[..|hunks| - 1], hunks[|hunks| - 1];
    InitAndLast(hunks);
    assert h in hunks && forall x :: x in init ==> x in hunks;
    TrimmedHunkLines(h);
    TrimmedBody(meta, init, h);
    if TrimHunk(h) != [] {
      assert TrimHunk(h) == [TrimHunk(h)[0]];
      ShortenedHunk(meta, init, TrimHunk(h)[0]);
    } else {
      assert TrimHunks(hunks) == init;
      VanishedHunk(meta, init, h.header);
    }
  }

  lemma {:induction false} TrimmedBody(meta: seq<string>, init: seq<DiffHunk>, h: DiffHunk)
    requires TrimLines([h.header] + h.lines) != []
    ensures TrimLines(meta + HunkLines(init + [h])) == meta + (HunkLines(init) + TrimLines([h.header] + h.lines))
  {
    HunkLinesAppended(init, h);
    TrimAppended(HunkLines(init), [h.header] + h.lines);
    TrimAppended(meta, HunkLines(init + [h]));
  }

  lemma {:induction false} ShortenedHunk(meta: seq<string>, init: seq<DiffHunk>, h: DiffHunk)
    requires forall line :: line in meta ==> IsPlainLine(line)
    requires forall x :: x in init ==> IsPrintableHunk(x)
    requires IsPrintableHunk(h)
    ensures Hunks(Seen(meta + (HunkLines(init) + ([h.header] + h.lines)))) == KeptHunks(SeenHunks(init + [h]))
  {
    HunkLinesAppended(init, h);
    WholeHunks(meta, init + [h]);
  }

  lemma {:induction false} VanishedHunk(meta: seq<string>, init: seq<DiffHunk>, header: string)
    requires forall line :: line in meta ==> IsPlainLine(line)
    requires forall h :: h in init ==> IsPrintableHunk(h)
    requires IsOneLine(header) && IsHunkStart(header) && !IsHunkStart(Text.TrimEnd(header))
    ensures Hunks(Seen(meta + (HunkLines(init) + [Text.TrimEnd(header)]))) == KeptHunks(SeenHunks(init))
  {
    var line := Text.TrimEnd(header);
    FormerHeader(header);
    HeaderIsNotBlank(header);
    TrimEndVisible(header);
    VisibleIsSeen(line);
    SeenSplits(meta, HunkLines(init) + [line]);
    SeenSplits(HunkLines(init), [line]);
    SeenStaysPlain(meta);
    SeenStaysPrintable(init);
    HunksAfterMeta(Seen(meta), HunkLines(SeenHunks(init)) + [line]);
    DroppedTail(SeenHunks(init), line);
  }

  lemma {:induction false} HunksOfBody(f: PatchFile, isLast: bool)
    requires IsPrintable(f)
    ensures Hunks(Seen(ArrivedBody(f, isLast))) == ReportedHunks(f.hunks, isLast)
  {
    if !isLast {
      WholeHunks(f.meta, f.hunks);
    } else if f.hunks != [] {
      TrimmedHunks(f.meta, f.hunks);
    } else {
      assert BodyLines(f) == f.meta;
      TrimStaysPlain(f.meta);
      WholeHunks(TrimLines(f.meta), []);
      assert TrimLines(f.meta) + HunkLines([]) == TrimLines(f.meta);
    }
  }

  // Sections.

  /** The lines of the file's section that reach the parser. */
  function ArrivedLines(f: PatchFile, isLast: bool): seq<string> {
    [HeaderLine(f)] + ArrivedBody(f, isLast)
  }

  function ArrivedSections(files: seq<PatchFile>): seq<seq<string>> {
    if files == [] then [] else [ArrivedLines(files[0], |files| == 1)] + ArrivedSections(files[1..])
  }

  lemma {:induction false} BodyLineIsPlain(f: PatchFile, line: string)
    requires IsPrintable(f) && line in BodyLines(f)
    ensures IsOneLine(line) && !(FILE_HEADER <= line)
  {
    if line !in f.meta {
      HunkLinesAreLines(f.hunks, line);
    }
  }

  lemma {:induction false} HunkLinesAreLines(hunks: seq<DiffHunk>, line: string)
    requires forall h :: h in hunks ==> IsPrintableHunk(h)
    requires line in HunkLines(hunks)
    ensures IsOneLine(line) && !(FILE_HEADER <= line)
  {
    var h := hunks[0];
    assert h in hunks;
    if line == h.header {
      assert line[0] == HUNK_HEADER[0] && FILE_HEADER[0] != HUNK_HEADER[0];
    } else if line !in h.lines {
      HunkLinesAreLines(hunks[1..], line);
    }
  }

  lemma {:induction false} ArrivedIsSection(f: PatchFile, isLast: bool)
    requires IsPrintable(f)
    ensures IsSectionLines(ArrivedLines(f, isLast))
  {
    var body := ArrivedBody(f, isLast);
    assert ArrivedLines(f, isLast)[1..] == body;
    HeaderIsVisibleLine(f);
    forall line | line in body
      ensures IsOneLine(line) && !(FILE_HEADER <= line)
    {
      if isLast {
        TrimLinesShorten(BodyLines(f), line);
        var whole :| whole in BodyLines(f) && line <= whole;
        BodyLineIsPlain(f, whole);
      } else {
        BodyLineIsPlain(f, line);
      }
    }
  }

  lemma {:induction false} ArrivedAreSections(files: seq<PatchFile>)
    requires forall f :: f in files ==> IsPrintable(f)
    ensures |ArrivedSections(files)| == |files|
    ensures forall lines :: lines in ArrivedSections(files) ==> IsSectionLines(lines)
    ensures forall i :: 0 <= i < |files| ==> ArrivedSections(files)[i] == ArrivedLines(files[i], i == |files| - 1)
  {
    if files != [] {
      assert files[0] in files;
      ArrivedIsSection(files[0], |files| == 1);
      ArrivedAreSections(files[1..]);
    }
  }

  lemma {:induction false} TrimmedFile(f: PatchFile)
    requires IsPrintable(f)
    ensures TrimLines(FileLines(f)) == ArrivedLines(f, true)
    ensures var lines := ArrivedLines(f, true); EndsVisibly(lines[|lines| - 1])
  {
    HeaderIsVisibleLine(f);
    var header := HeaderLine(f);
    assert header[|header| - 1] in header;
    TrimOne(header);
    TrimEndVisible(header);
    TrimAppended([header], BodyLines(f));
    assert [header] + [] == [header];
    TrimLinesEnd(FileLines(f));
  }

  /** Trimming the whole patch trims its last file. */
  lemma {:induction false} TrimmedPatch(files: seq<PatchFile>)
    requires forall f :: f in files ==> IsPrintable(f)
    ensures TrimLines(PatchLines(files)) == Flat(ArrivedSections(files))
  {
    if files != [] {
      var f := files[0];
      assert f in files;
      if |files| == 1 {
        assert PatchLines(files[1..]) == [] && PatchLines(files) == FileLines(f);
        assert Flat(ArrivedSections(files)) == ArrivedLines(f, true) + Flat([]);
        TrimmedFile(f);
      } else {
        TrimmedPatch(files[1..]);
        TrimAppended(FileLines(f), PatchLines(files[1..]));
        assert ArrivedLines(f, false) == FileLines(f);
      }
    }
  }

  /** The text that is left is that of the sections that arrive. */
  lemma {:induction false} TrimmedText(files: seq<PatchFile>, before: string, after: string)
    requires forall f :: f in files ==> IsPrintable(f)
    requires Text.IsBlank(before) && Text.IsBlank(after)
    ensures Text.Trim(before + PrintPatch(files) + after) == Joined(Flat(ArrivedSections(files)))
  {
    TrimmedPatch(files);
    TrimJoined(PatchLines(files), after);
    if files == [] {
      assert before + [] + after == before + after;
      TrimmedBlank(before + after);
    } else {
      PrintStarts(files);
      TrimmedAround(before, PrintPatch(files), after);
    }
  }

  lemma {:induction false} TrimmedBlank(blank: string)
    requires Text.IsBlank(blank)
    ensures Text.Trim(blank) == []
  {
    assert blank + [] == blank;
    TrimStartSkips(blank, []);
  }

  lemma {:induction false} TrimmedAround(before: string, text: string, after: string)
    requires Text.IsBlank(before) && text != [] && !Text.IsWhitespace(text[0])
    ensures Text.Trim(before + text + after) == Text.TrimEnd(text + after)
  {
    Associative(before, text, after);
    TrimStartSkips(before, text + after);
  }

  lemma {:induction false} PrintStarts(files: seq<PatchFile>)
    requires files != []
    ensures PrintPatch(files) != [] && PrintPatch(files)[0] == 'd'
  {
    var lines := PatchLines(files);
    assert lines[0] == HeaderLine(files[0]) && HeaderLine(files[0])[0] == FILE_HEADER[0] == 'd';
    if |lines| > 1 {
      assert Joined(lines) == lines[0] + "\n" + Joined(lines[1..]);
    }
  }

  // The whole patch.

  lemma {:induction false} EachParsed(sections: seq<string>, files: seq<DiffFile>)
    requires |sections| == |files|
    requires forall i :: 0 <= i < |files| ==> ParsedSection(sections[i]) == Some(files[i])
    ensures ParsedSections(sections) == files
  {
    EachFound(ParsedSection, sections, files);
  }

  lemma {:induction false} EachFound<S, T>(parse: S -> Option<T>, xs: seq<S>, ys: seq<T>)
    requires |xs| == |ys|
    requires forall i :: 0 <= i < |ys| ==> parse(xs[i]) == Some(ys[i])
    ensures FilterMap(parse, xs) == ys
  {
    if ys != [] {
      var n := |ys| - 1;
      EachFound(parse, xs[..n], ys[..n]);
      FilterMapNext(parse, xs[..n], xs[n]);
      assert xs == xs[..n] + [xs[n]] && ys == ys[..n] + [ys[n]];
    }
  }

  lemma {:induction false} SectionReported(f: PatchFile, isLast: bool, section: string)
    requires IsPrintable(f) && Lines(section) == Seen(ArrivedLines(f, isLast))
    ensures ParsedSection(section) == Some(Reported(f, isLast))
  {
    var header, body := HeaderLine(f), ArrivedBody(f, isLast);
    HeaderIsVisibleLine(f);
    VisibleIsSeen(header);
    SeenSplits([header], body);
    assert Lines(section)[0] == header && Lines(section)[1..] == Seen(body);
    HeaderPath(f);
    HunksOfBody(f, isLast);
  }

  lemma {:induction false} SectionsReported(files: seq<PatchFile>)
    requires files != [] && forall f :: f in files ==> IsPrintable(f)
    ensures ParsedSections(SectionTexts(ArrivedSections(files))) == AllReported(files)
  {
    var texts := SectionTexts(ArrivedSections(files));
    forall i | 0 <= i < |files|
      ensures |texts| == |files| && ParsedSection(texts[i]) == Some(AllReported(files)[i])
    {
      SectionReportedAt(files, i);
    }
    SectionReportedAt(files, 0);
    EachParsed(texts, AllReported(files));
  }

  lemma {:induction false} SectionReportedAt(files: seq<PatchFile>, i: nat)
    requires forall f :: f in files ==> IsPrintable(f)
    requires i < |files|
    ensures |SectionTexts(ArrivedSections(files))| == |files|
    ensures ParsedSection(SectionTexts(ArrivedSections(files))[i]) == Some(Reported(files[i], i == |files| - 1))
  {
    SectionArrives(files, i);
    SectionReported(files[i], i == |files| - 1, SectionTexts(ArrivedSections(files))[i]);
  }

  lemma {:induction false} SectionArrives(files: seq<PatchFile>, i: nat)
    requires forall f :: f in files ==> IsPrintable(f)
    requires i < |files|
    ensures |SectionTexts(ArrivedSections(files))| == |files|
    ensures Lines(SectionTexts(ArrivedSections(files))[i]) == Seen(ArrivedLines(files[i], i == |files| - 1))
  {
    ArrivedAreSections(files);
    TrimmedFile(files[|files| - 1]);
    SectionLinesAgain(ArrivedSections(files), i);
  }

  lemma {:induction false} SectionsCut(files: seq<PatchFile>)
    requires forall f :: f in files ==> IsPrintable(f)
    ensures Sections(Joined(Flat(ArrivedSections(files)))) == SectionTexts(ArrivedSections(files))
  {
    var sections := ArrivedSections(files);
    var t := Joined(Flat(sections));
    ArrivedAreSections(files);
    if files == [] {
      assert t[NextStart(t, 0)..] == [];
    } else {
      assert sections[0] in sections;
      StartsWithHeader(sections);
      assert t[0..] == t;
      assert IsStart(t, 0);
      SectionsSplit(sections);
    }
  }

  /**
   Parsing a printed patch, whatever blank text surrounds it, reports every file in order: its path, the
   hunks that arrive with the lines the parser keeps, and the counts of those lines.
   */
  lemma {:induction false} ParseUndoesPrint(files: seq<PatchFile>, before: string, after: string)
    requires forall f :: f in files ==> IsPrintable(f)
    requires Text.IsBlank(before) && Text.IsBlank(after)
    ensures Parsed(before + PrintPatch(files) + after) == AllReported(files)
  {
    TrimmedText(files, before, after);
    SectionsCut(files);
    if files != [] {
      SectionsReported(files);
    }
  }

  lemma {:induction false} PrintedAlone(files: seq<PatchFile>)
    requires forall f :: f in files ==> IsPrintable(f)
    ensures Parsed(PrintPatch(files)) == AllReported(files)
  {
    var text := PrintPatch(files);
    ParseUndoesPrint(files, [], []);
    assert [] + text + [] == text;
  }
}
