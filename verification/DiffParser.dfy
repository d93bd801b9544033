/**
 Parsing a unified diff (crates/ajax-core/src/diff_review.rs:371-470).  The classification of a path as
 signal or noise is not part of this model.
 */
module DiffParser {
  import opened Options
  import Text
  import opened Sequences

  datatype DiffHunk = DiffHunk(header: string, lines: seq<string>)

  datatype DiffFile = DiffFile(path: string, status: string, additions: nat, deletions: nat, hunks: seq<DiffHunk>)

  const FILE_HEADER: string := "diff --git "
  const HUNK_HEADER: string := "@@ "

  // Lines.

  function FirstNewline(s: string): (n: nat)
    ensures n <= |s| && '\n' !in s[..n]
    ensures n < |s| ==> s[n] == '\n'
  {
    if s == [] || s[0] == '\n' then 0
    else
      var n := 1 + FirstNewline(s[1..]);
      assert s[..n] == [s[0]] + s[1..][..n - 1];
      n
  }

  function WithoutCarriageReturn(line: string): string {
    if line != [] && line[|line| - 1] == '\r' then line[..|line| - 1] else line
  }

  /** str::lines: a line ends at a line feed, which may follow a carriage return; no empty line after the last one. */
  function Lines(s: string): seq<string> {
    if s == [] then []
    else
      var n := FirstNewline(s);
      if n == |s| then [s] else [WithoutCarriageReturn(s[..n])] + Lines(s[n + 1..])
  }

  function Joined(lines: seq<string>): string {
    if lines == [] then [] else if |lines| == 1 then lines[0] else lines[0] + "\n" + Joined(lines[1..])
  }

  predicate Contains(text: string, part: string) {
    exists i :: 0 <= i <= |text| && part <= text[i..]
  }

  // Sections.

  /** A file's section starts at i: its header stands there, at the beginning of a line. */
  predicate IsStart(t: string, i: nat)
    requires i <= |t|
  {
    FILE_HEADER <= t[i..] && (i == 0 || t[i - 1] == '\n')
  }

  /** The first start at or after i, |t| if there is none. */
  function NextStart(t: string, i: nat): (j: nat)
    requires i <= |t|
    ensures i <= j <= |t|
    decreases |t| - i
  {
    if i == |t| || IsStart(t, i) then i else NextStart(t, i + 1)
  }

  /** The text, which begins with a section, cut at every further start. */
  function SplitSections(t: string): seq<string>
    decreases |t|
  {
    if t == [] then []
    else var j := NextStart(t, 1); [t[..j]] + SplitSections(t[j..])
  }

  function Sections(t: string): seq<string> {
    SplitSections(t[NextStart(t, 0)..])
  }

  // One section.

  predicate IsHunkStart(line: string) {
    HUNK_HEADER <= line
  }

  predicate EndsBody(line: string) {
    HUNK_HEADER <= line || FILE_HEADER <= line
  }

  predicate IsAddition(line: string) {
    "+" <= line && !("+++" <= line)
  }

  predicate IsDeletion(line: string) {
    "-" <= line && !("---" <= line)
  }

  predicate IsKept(line: string) {
    IsAddition(line) || IsDeletion(line) || " " <= line
  }

  function Kept(lines: seq<string>): seq<string> {
    if lines == [] then []
    else Kept(lines[..|lines| - 1]) + if IsKept(lines[|lines| - 1]) then [lines[|lines| - 1]] else []
  }

  /** How many lines belong to the hunk whose header came just before. */
  function BodyLength(lines: seq<string>): (n: nat)
    ensures n <= |lines|
    ensures forall i :: 0 <= i < n ==> !EndsBody(lines[i])
    ensures n < |lines| ==> EndsBody(lines[n])
  {
    if lines == [] || EndsBody(lines[0]) then 0 else 1 + BodyLength(lines[1..])
  }

  function Hunks(lines: seq<string>): seq<DiffHunk>
    decreases |lines|
  {
    if lines == [] then []
    else if !IsHunkStart(lines[0]) then Hunks(lines[1..])
    else
      var n := BodyLength(lines[1..]);
      [DiffHunk(lines[0], Kept(lines[1..][..n]))] + Hunks(lines[1..][n..])
  }

  function CountOf(lines: seq<string>, sign: char): nat {
    if lines == [] then 0
    else CountOf(lines[..|lines| - 1], sign) + if [sign] <= lines[|lines| - 1] then 1 else 0
  }

  /** How many lines of the hunks start with the sign. */
  function CountIn(hunks: seq<DiffHunk>, sign: char): nat {
    if hunks == [] then 0 else CountIn(hunks[..|hunks| - 1], sign) + CountOf(hunks[|hunks| - 1].lines, sign)
  }

  function StatusOf(body: string): string {
    if Contains(body, "new file mode") then "added"
    else if Contains(body, "deleted file mode") then "deleted"
    else if Contains(body, "rename from") then "renamed"
    else "modified"
  }

  /** str::split_whitespace. */
  function Words(s: string): seq<string> {
    if s == [] then []
    else if Text.IsWhitespace(s[0]) then Words(s[1..])
    else
      var n := WordLength(s);
      [s[..n]] + Words(s[n..])
  }

  function WordLength(s: string): (n: nat)
    ensures n <= |s| && forall i :: 0 <= i < n ==> !Text.IsWhitespace(s[i])
    ensures n < |s| ==> Text.IsWhitespace(s[n])
    ensures s != [] && !Text.IsWhitespace(s[0]) ==> n > 0
  {
    if s == [] || Text.IsWhitespace(s[0]) then 0 else 1 + WordLength(s[1..])
  }

  function WithoutPrefix(s: string, p: string): string {
    if p <= s then s[|p|..] else s
  }

  function ExtractPath(pathLine: string): Option<string> {
    var parts := Words(pathLine);
    if |parts| < 2 then None else Some(WithoutPrefix(parts[1], "b/"))
  }

  /** A section as a file; its additions and deletions are the + and - lines kept in its hunks. */
  function ParsedSection(section: string): Option<DiffFile> {
    var lines := Lines(section);
    if lines == [] then None
    else
      var path := ExtractPath(WithoutPrefix(lines[0], FILE_HEADER));
      if path.None? then None
      else
        var hunks := Hunks(lines[1..]);
        Some(DiffFile(path.value, StatusOf(Joined(lines[1..])), CountIn(hunks, '+'), CountIn(hunks, '-'), hunks))
  }

  /** The values that parse finds, in order. */
  function FilterMap<S, T>(parse: S -> Option<T>, xs: seq<S>): seq<T> {
    if xs == [] then []
    else
      var found := parse(xs[|xs| - 1]);
      FilterMap(parse, xs[..|xs| - 1]) + if found.Some? then [found.value] else []
  }

  function ParsedSections(sections: seq<string>): seq<DiffFile> {
    FilterMap(ParsedSection, sections)
  }

  function Parsed(patch: string): seq<DiffFile> {
    ParsedSections(Sections(Text.Trim(patch)))
  }

  // The parser's loops.

  lemma {:induction false} KeptNext(lines: seq<string>, i: nat)
    requires i < |lines|
    ensures Kept(lines[..i + 1]) == Kept(lines[..i]) + if IsKept(lines[i]) then [lines[i]] else []
  {
    assert lines[..i + 1][..i] == lines[..i];
  }

  lemma {:induction false} BodyNext(lines: seq<string>, i: nat)
    requires i < |lines| && !EndsBody(lines[i])
    ensures BodyLength(lines[i..]) == 1 + BodyLength(lines[i + 1..])
  {
    assert lines[i..][1..] == lines[i + 1..];
  }

  lemma {:induction false} CountNext(lines: seq<string>, line: string, sign: char)
    ensures CountOf(lines + [line], sign) == CountOf(lines, sign) + if [sign] <= line then 1 else 0
  {
    assert (lines + [line])[..|lines|] == lines;
  }

  lemma {:induction false} KeptSigns(line: string)
    requires IsKept(line)
    ensures ['+'] <= line <==> IsAddition(line)
    ensures ['-'] <= line <==> IsDeletion(line)
    ensures !(IsAddition(line) && IsDeletion(line))
  {
    assert "+"[0] == '+' && "-"[0] == '-' && " "[0] == ' ';
  }

  /** The counts start from those given and grow by the signs of the lines kept. */
  ghost predicate Tallies(lines: seq<string>, additions: nat, deletions: nat, additions0: nat, deletions0: nat) {
    additions == additions0 + CountOf(lines, '+') && deletions == deletions0 + CountOf(lines, '-')
  }

  /** One body line: counted and pushed, or dropped. */
  method KeepLine(
    lines: seq<string>, line: string, additions: nat, deletions: nat, ghost additions0: nat, ghost deletions0: nat)
    returns (lines': seq<string>, additions': nat, deletions': nat)
    requires Tallies(lines, additions, deletions, additions0, deletions0)
    ensures lines' == lines + if IsKept(line) then [line] else []
    ensures Tallies(lines', additions', deletions', additions0, deletions0)
  {
    lines', additions', deletions' := lines, additions, deletions;
    CountNext(lines, line, '+');
    CountNext(lines, line, '-');
    if IsKept(line) {
      KeptSigns(line);
    }
    if IsAddition(line) {
      additions' := additions + 1;
      lines' := lines + [line];
    } else if IsDeletion(line) {
      deletions' := deletions + 1;
      lines' := lines + [line];
    } else if " " <= line {
      lines' := lines + [line];
    }
  }

  lemma {:induction false} BodyEnd(rest: seq<string>, start: nat, index: nat)
    requires start <= index <= |rest|
    requires forall i :: start <= i < index ==> !EndsBody(rest[i])
    requires index < |rest| ==> EndsBody(rest[index])
    ensures BodyLength(rest[start..]) == index - start
    decreases index - start
  {
    if start < index {
      BodyNext(rest, start);
      BodyEnd(rest, start + 1, index);
    }
  }

  /** The lines of one hunk, up to the next header, with the running counts. */
  method ParseHunkBody(rest: seq<string>, start: nat, additionsBefore: nat, deletionsBefore: nat)
    returns (index: nat, hunkLines: seq<string>, additions: nat, deletions: nat)
    requires start <= |rest|
    ensures index == start + BodyLength(rest[start..]) <= |rest|
    ensures hunkLines == Kept(rest[start..][..BodyLength(rest[start..])])
    ensures Tallies(hunkLines, additions, deletions, additionsBefore, deletionsBefore)
  {
    index, hunkLines, additions, deletions := start, [], additionsBefore, deletionsBefore;
    ghost var body := rest[start..];
    while index < |rest| && !(HUNK_HEADER <= rest[index]) && !(FILE_HEADER <= rest[index])
      invariant start <= index <= |rest|
      invariant forall i :: start <= i < index ==> !EndsBody(rest[i])
      invariant hunkLines == Kept(body[..index - start])
      invariant Tallies(hunkLines, additions, deletions, additionsBefore, deletionsBefore)
    {
      KeptNext(body, index - start);
      hunkLines, additions, deletions :=
        KeepLine(hunkLines, rest[index], additions, deletions, additionsBefore, deletionsBefore);
      index := index + 1;
    }
    BodyEnd(rest, start, index);
  }

  lemma {:induction false} HunksNext(rest: seq<string>, index: nat)
    requires index < |rest|
    ensures
      if IsHunkStart(rest[index]) then
        var n := BodyLength(rest[index + 1..]);
        Hunks(rest[index..])
        == [DiffHunk(rest[index], Kept(rest[index + 1..][..n]))] + Hunks(rest[index + 1 + n..])
      else Hunks(rest[index..]) == Hunks(rest[index + 1..])
  {
    assert rest[index..][1..] == rest[index + 1..];
    if IsHunkStart(rest[index]) {
      var n := BodyLength(rest[index + 1..]);
      assert rest[index + 1..][n..] == rest[index + 1 + n..];
    }
  }

  lemma {:induction false} CountInNext(hunks: seq<DiffHunk>, h: DiffHunk, sign: char)
    ensures CountIn(hunks + [h], sign) == CountIn(hunks, sign) + CountOf(h.lines, sign)
  {
    assert (hunks + [h])[..|hunks|] == hunks;
  }

  /** The hunks found before index, followed by those from index on, are all of them. */
  ghost predicate HasParsed(hunks: seq<DiffHunk>, rest: seq<string>, index: nat)
    requires index <= |rest|
  {
    hunks + Hunks(rest[index..]) == Hunks(rest)
  }

  lemma {:induction false} HasParsedNone(rest: seq<string>)
    ensures HasParsed([], rest, 0)
  {
    assert rest[0..] == rest && [] + Hunks(rest) == Hunks(rest);
  }

  lemma {:induction false} HasParsedSkip(hunks: seq<DiffHunk>, rest: seq<string>, index: nat)
    requires index < |rest| && !IsHunkStart(rest[index])
    requires HasParsed(hunks, rest, index)
    ensures HasParsed(hunks, rest, index + 1)
  {
    HunksNext(rest, index);
  }

  lemma {:induction false} HasParsedAll(hunks: seq<DiffHunk>, rest: seq<string>)
    requires HasParsed(hunks, rest, |rest|)
    ensures hunks == Hunks(rest)
  {
    assert rest[|rest|..] == [] && hunks + [] == hunks;
  }

  lemma {:induction false} HasParsedHunk(
    before: seq<DiffHunk>, rest: seq<string>, at: nat, after: seq<DiffHunk>, index: nat)
    requires at < |rest| && IsHunkStart(rest[at]) && HasParsed(before, rest, at)
    requires index == at + 1 + BodyLength(rest[at + 1..])
    requires after == before + [DiffHunk(rest[at], Kept(rest[at + 1..][..BodyLength(rest[at + 1..])]))]
    ensures HasParsed(after, rest, index)
  {
    HunksNext(rest, at);
    Associative(before, [after[|before|]], Hunks(rest[index..]));
  }

  /** A hunk: its header and its body. */
  method ParseHunk(rest: seq<string>, at: nat, before: seq<DiffHunk>, additions: nat, deletions: nat)
    returns (index: nat, hunks: seq<DiffHunk>, additions': nat, deletions': nat)
    requires at < |rest| && IsHunkStart(rest[at])
    requires additions == CountIn(before, '+') && deletions == CountIn(before, '-')
    ensures at < index <= |rest| && index == at + 1 + BodyLength(rest[at + 1..])
    ensures hunks == before + [DiffHunk(rest[at], Kept(rest[at + 1..][..BodyLength(rest[at + 1..])]))]
    ensures additions' == CountIn(hunks, '+') && deletions' == CountIn(hunks, '-')
  {
    var hunkLines: seq<string>;
    index, hunkLines, additions', deletions' := ParseHunkBody(rest, at + 1, additions, deletions);
    CountInNext(before, DiffHunk(rest[at], hunkLines), '+');
    CountInNext(before, DiffHunk(rest[at], hunkLines), '-');
    hunks := before + [DiffHunk(rest[at], hunkLines)];
  }

  /** One turn of the loop over a section's lines: a whole hunk, or a line outside of hunks. */
  method ParseTurn(rest: seq<string>, at: nat, before: seq<DiffHunk>, additions: nat, deletions: nat)
    returns (index: nat, hunks: seq<DiffHunk>, additions': nat, deletions': nat)
    requires at < |rest| && HasParsed(before, rest, at)
    requires additions == CountIn(before, '+') && deletions == CountIn(before, '-')
    ensures at < index <= |rest| && HasParsed(hunks, rest, index)
    ensures additions' == CountIn(hunks, '+') && deletions' == CountIn(hunks, '-')
  {
    if HUNK_HEADER <= rest[at] {
      index, hunks, additions', deletions' := ParseHunk(rest, at, before, additions, deletions);
      HasParsedHunk(before, rest, at, hunks, index);
    } else {
      HasParsedSkip(before, rest, at);
      index, hunks, additions', deletions' := at + 1, before, additions, deletions;
    }
  }

  method ParseHunks(rest: seq<string>) returns (hunks: seq<DiffHunk>, additions: nat, deletions: nat)
    ensures hunks == Hunks(rest)
    ensures additions == CountIn(hunks, '+') && deletions == CountIn(hunks, '-')
  {
    hunks, additions, deletions := [], 0, 0;
    var index := 0;
    HasParsedNone(rest);
    while index < |rest|
      invariant index <= |rest| && HasParsed(hunks, rest, index)
      invariant additions == CountIn(hunks, '+') && deletions == CountIn(hunks, '-')
    {
      index, hunks, additions, deletions := ParseTurn(rest, index, hunks, additions, deletions);
    }
    HasParsedAll(hunks, rest);
  }

  method ParseDiffSection(section: string) returns (file: Option<DiffFile>)
    ensures file == ParsedSection(section)
  {
    var lines := Lines(section);
    if lines == [] {
      return None;
    }
    var path := ExtractPath(WithoutPrefix(lines[0], FILE_HEADER));
    if path.None? {
      return None;
    }
    var rest := lines[1..];
    var hunks, additions, deletions := ParseHunks(rest);
    return Some(DiffFile(path.value, StatusOf(Joined(rest)), additions, deletions, hunks));
  }

  lemma {:induction false} StartShifts(t: string, k: nat, i: nat)
    requires k < |t| && 0 < i && k + i <= |t|
    ensures IsStart(t[k..], i) <==> IsStart(t, k + i)
  {
    assert t[k..][i..] == t[k + i..];
  }

  lemma {:induction false} NextStartShifts(t: string, k: nat, i: nat)
    requires k < |t| && 0 < i && k + i <= |t|
    ensures NextStart(t[k..], i) + k == NextStart(t, k + i)
    decreases |t| - i
  {
    StartShifts(t, k, i);
    if k + i < |t| && !IsStart(t, k + i) {
      NextStartShifts(t, k, i + 1);
    }
  }

  lemma {:induction false} NextSection(t: string, start: nat, n: nat)
    requires start < |t| && n == NextStart(t, start + 1)
    ensures SplitSections(t[start..]) == [t[start..n]] + SplitSections(t[n..])
  {
    NextStartShifts(t, start, 1);
    SplitOnce(t[start..], n - start);
    Resliced(t, start, n);
  }

  lemma {:induction false} Resliced(t: string, start: nat, n: nat)
    requires start <= n <= |t|
    ensures [t[start..][..n - start]] + SplitSections(t[start..][n - start..]) == [t[start..n]] + SplitSections(t[n..])
  {
    Slices(t, start, n - start);
  }

  lemma {:induction false} SplitOnce(t: string, j: nat)
    requires t != [] && j == NextStart(t, 1)
    ensures SplitSections(t) == [t[..j]] + SplitSections(t[j..])
  {
  }

  /** Where the next section starts, found by looking at every line beginning. */
  method FindStart(t: string, from: nat) returns (start: nat)
    requires from <= |t|
    ensures start == NextStart(t, from)
  {
    start := from;
    while start < |t| && !(FILE_HEADER <= t[start..] && (start == 0 || t[start - 1] == '\n'))
      invariant from <= start <= |t|
      invariant NextStart(t, start) == NextStart(t, from)
    {
      start := start + 1;
    }
  }

  lemma {:induction false} ParsedNext(sections: seq<string>, section: string)
    ensures ParsedSections(sections + [section])
         == ParsedSections(sections) + if ParsedSection(section).Some? then [ParsedSection(section).value] else []
  {
    FilterMapNext(ParsedSection, sections, section);
  }

  lemma {:induction false} FilterMapNext<S, T>(parse: S -> Option<T>, xs: seq<S>, x: S)
    ensures FilterMap(parse, xs + [x]) == FilterMap(parse, xs) + if parse(x).Some? then [parse(x).value] else []
  {
    assert (xs + [x])[..|xs|] == xs;
  }

  /** A section's file, pushed if it has a path. */
  method PushSection(files: seq<DiffFile>, section: string, ghost done: seq<string>) returns (files': seq<DiffFile>)
    requires files == ParsedSections(done)
    ensures files' == ParsedSections(done + [section])
  {
    ParsedNext(done, section);
    var file := ParseDiffSection(section);
    files' := if file.Some? then files + [file.value] else files;
  }

  /** One turn of the loop over the sections. */
  method ParseSectionAt(t: string, start: nat, files: seq<DiffFile>, ghost done: seq<string>)
    returns (files': seq<DiffFile>, end: nat, ghost done': seq<string>)
    requires start < |t| && HasCut(done, t, start) && files == ParsedSections(done)
    ensures start < end <= |t| && HasCut(done', t, end) && files' == ParsedSections(done')
  {
    end := FindStart(t, start + 1);
    HasCutNext(done, t, start);
    done' := done + [t[start..end]];
    files' := PushSection(files, t[start..end], done);
  }

  method ParseUnifiedDiff(patch: string) returns (files: seq<DiffFile>)
    ensures files == Parsed(patch)
  {
    var trimmed := Text.Trim(patch);
    files := [];
    var start := FindStart(trimmed, 0);
    ghost var done: seq<string> := [];
    while start < |trimmed|
      invariant start <= |trimmed|
      invariant HasCut(done, trimmed, start)
      invariant files == ParsedSections(done)
      decreases |trimmed| - start
    {
      files, start, done := ParseSectionAt(trimmed, start, files, done);
    }
    HasCutAll(done, trimmed);
  }

  /** The sections cut before start, followed by those from start on, are all of them. */
  ghost predicate HasCut(done: seq<string>, t: string, start: nat)
    requires start <= |t|
  {
    done + SplitSections(t[start..]) == Sections(t)
  }

  lemma {:induction false} HasCutNext(done: seq<string>, t: string, start: nat)
    requires start < |t| && HasCut(done, t, start)
    ensures HasCut(done + [t[start..NextStart(t, start + 1)]], t, NextStart(t, start + 1))
  {
    NextSection(t, start, NextStart(t, start + 1));
    Associative(done, [t[start..NextStart(t, start + 1)]], SplitSections(t[NextStart(t, start + 1)..]));
  }

  lemma {:induction false} HasCutAll(done: seq<string>, t: string)
    requires HasCut(done, t, |t|)
    ensures done == Sections(t)
  {
    assert t[|t|..] == [] && done + [] == done;
  }

  // What every parse reports.

  function LineTotal(hunks: seq<DiffHunk>): nat {
    if hunks == [] then 0 else LineTotal(hunks[..|hunks| - 1]) + |hunks[|hunks| - 1].lines|
  }

  predicate IsParsedHunk(h: DiffHunk) {
    IsHunkStart(h.header) && forall line :: line in h.lines ==> IsKept(line)
  }

  lemma {:induction false} KeptAreKept(lines: seq<string>)
    ensures forall line :: line in Kept(lines) ==> IsKept(line)
  {
    if lines != [] {
      KeptAreKept(lines[..|lines| - 1]);
    }
  }

  lemma {:induction false} HunksAreParsed(lines: seq<string>)
    ensures forall h :: h in Hunks(lines) ==> IsParsedHunk(h)
    decreases |lines|
  {
    if lines != [] {
      HunksAreParsed(lines[1..]);
      var n := BodyLength(lines[1..]);
      KeptAreKept(lines[1..][..n]);
      HunksAreParsed(lines[1..][n..]);
    }
  }

  /** A kept line carries exactly one of the three signs. */
  lemma {:induction false} SignsPartition(lines: seq<string>)
    requires forall line :: line in lines ==> IsKept(line)
    ensures CountOf(lines, '+') + CountOf(lines, '-') + CountOf(lines, ' ') == |lines|
  {
    if lines != [] {
      var last := lines[|lines| - 1];
      assert last in lines;
      assert "+"[0] == '+' && "-"[0] == '-' && " "[0] == ' ';
      assert ([' '] <= last) != (['+'] <= last || ['-'] <= last);
      KeptSigns(last);
      SignsPartition(lines[..|lines| - 1]);
    }
  }

  lemma {:induction false} SignsPartitionHunks(hunks: seq<DiffHunk>)
    requires forall h :: h in hunks ==> IsParsedHunk(h)
    ensures CountIn(hunks, '+') + CountIn(hunks, '-') + CountIn(hunks, ' ') == LineTotal(hunks)
  {
    if hunks != [] {
      assert hunks[|hunks| - 1] in hunks;
      SignsPartition(hunks[|hunks| - 1].lines);
      SignsPartitionHunks(hunks[..|hunks| - 1]);
    }
  }

  lemma {:induction false} FoundBySome<S, T>(parse: S -> Option<T>, xs: seq<S>, found: T) returns (x: S)
    requires found in FilterMap(parse, xs)
    ensures parse(x) == Some(found)
  {
    var init, last := xs[..|xs| - 1], xs[|xs| - 1];
    if found in FilterMap(parse, init) {
      x := FoundBySome(parse, init, found);
    } else {
      x := last;
    }
  }

  /**
   For every text whatever: a file's counts are the + and - lines its hunks hold, every line held is an
   addition, a deletion or a context line, and each is counted as exactly one of the three.
   */
  lemma {:induction false} CountsMatchHunks(patch: string, file: DiffFile)
    requires file in Parsed(patch)
    ensures file.additions == CountIn(file.hunks, '+') && file.deletions == CountIn(file.hunks, '-')
    ensures forall h :: h in file.hunks ==> IsParsedHunk(h)
    ensures file.additions + file.deletions + CountIn(file.hunks, ' ') == LineTotal(file.hunks)
  {
    var section := FoundBySome(ParsedSection, Sections(Text.Trim(patch)), file);
    HunksAreParsed(Lines(section)[1..]);
    SignsPartitionHunks(file.hunks);
  }
}
