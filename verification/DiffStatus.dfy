/**
 Which status a parsed file has (crates/ajax-core/src/diff_review.rs:406-416): the parser looks for the
 marks of git's extended header anywhere in the section, so a hunk that quotes one can decide the status.
 */
module DiffStatus {
  import opened Options
  import opened DiffParser
  import opened DiffPrinting
  import opened DiffExactness
  import opened DiffRoundTrip
  import opened Sequences
  import Text

  const NEW_FILE: string := "new file mode"
  const DELETED_FILE: string := "deleted file mode"
  const RENAME: string := "rename from"

  /** Some line has the phrase somewhere. */
  ghost predicate Shows(lines: seq<string>, phrase: string) {
    exists line :: line in lines && Contains(line, phrase)
  }

  /** Some line starts with the phrase, as git writes it. */
  ghost predicate Declares(lines: seq<string>, phrase: string) {
    exists line :: line in lines && phrase <= line
  }

  /** The status that the lines before the hunks declare. */
  ghost function DeclaredStatus(meta: seq<string>): string {
    if Declares(meta, NEW_FILE) then "added"
    else if Declares(meta, DELETED_FILE) then "deleted"
    else if Declares(meta, RENAME) then "renamed"
    else "modified"
  }

  /** The line has a phrase that the parser takes for more than the status. */
  predicate Overrides(line: string, status: string) {
    || (status != "added" && Contains(line, NEW_FILE))
    || (status != "added" && status != "deleted" && Contains(line, DELETED_FILE))
    || (status == "modified" && Contains(line, RENAME))
  }

  /** The status is one the parser gives, and the lines show what it is given for. */
  ghost predicate IsShown(lines: seq<string>, status: string) {
    || (status == "added" && Shows(lines, NEW_FILE))
    || (status == "deleted" && Shows(lines, DELETED_FILE))
    || (status == "renamed" && Shows(lines, RENAME))
    || status == "modified"
  }

  lemma {:induction false} ContainsAt(text: string, phrase: string, i: nat)
    requires i + |phrase| <= |text| && text[i..i + |phrase|] == phrase
    ensures Contains(text, phrase)
  {
    assert phrase <= text[i..];
  }

  lemma {:induction false} FoundAt(text: string, phrase: string) returns (i: nat)
    requires Contains(text, phrase)
    ensures i + |phrase| <= |text| && text[i..i + |phrase|] == phrase
  {
    i :| 0 <= i <= |text| && phrase <= text[i..];
  }

  /** A phrase without a line feed is in a text of two parts exactly if it is in one of them. */
  lemma {:induction false} ContainsSplit(a: string, b: string, phrase: string)
    requires phrase != [] && '\n' !in phrase
    ensures Contains(a + "\n" + b, phrase) <==> Contains(a, phrase) || Contains(b, phrase)
  {
    if Contains(a + "\n" + b, phrase) {
      ContainsInPart(a, b, phrase);
    } else {
      ContainsInWhole(a, b, phrase);
    }
  }

  lemma {:induction false} ContainsInWhole(a: string, b: string, phrase: string)
    ensures Contains(a, phrase) || Contains(b, phrase) ==> Contains(a + "\n" + b, phrase)
  {
    var text := a + "\n" + b;
    if Contains(a, phrase) {
      var i := FoundAt(a, phrase);
      assert text[i..i + |phrase|] == a[i..i + |phrase|];
      ContainsAt(text, phrase, i);
    } else if Contains(b, phrase) {
      var i := FoundAt(b, phrase);
      var k := |a| + 1 + i;
      assert text[k..k + |phrase|] == b[i..i + |phrase|];
      ContainsAt(text, phrase, k);
    }
  }

  lemma {:induction false} ContainsInPart(a: string, b: string, phrase: string)
    requires phrase != [] && '\n' !in phrase
    requires Contains(a + "\n" + b, phrase)
    ensures Contains(a, phrase) || Contains(b, phrase)
  {
    var text, n := a + "\n" + b, |a|;
    var i := FoundAt(text, phrase);
    assert text[n] == '\n';
    AvoidsNewline(text, phrase, i, n);
    if n < i {
      var k := i - n - 1;
      assert b[k..k + |phrase|] == text[i..i + |phrase|];
      ContainsAt(b, phrase, k);
    } else {
      assert a[i..i + |phrase|] == text[i..i + |phrase|];
      ContainsAt(a, phrase, i);
    }
  }

  lemma {:induction false} AvoidsNewline(text: string, phrase: string, i: nat, n: nat)
    requires i + |phrase| <= |text| && text[i..i + |phrase|] == phrase && '\n' !in phrase
    requires n < |text| && text[n] == '\n'
    ensures n < i || i + |phrase| <= n
  {
    assert forall k :: i <= k < i + |phrase| ==> text[k] == phrase[k - i] && phrase[k - i] in phrase;
  }

  /** Joined lines contain the phrase exactly if one of them does. */
  lemma {:induction false} ContainsByLine(lines: seq<string>, phrase: string)
    requires phrase != [] && '\n' !in phrase
    ensures Contains(Joined(lines), phrase) <==> Shows(lines, phrase)
  {
    if |lines| == 1 {
      assert lines == [lines[0]];
    } else if |lines| > 1 {
      ContainsSplit(lines[0], Joined(lines[1..]), phrase);
      ContainsByLine(lines[1..], phrase);
      assert forall line :: line in lines <==> line == lines[0] || line in lines[1..];
    }
  }

  lemma {:induction false} StatusByLine(lines: seq<string>)
    ensures StatusOf(Joined(lines))
         == if Shows(lines, NEW_FILE) then "added"
            else if Shows(lines, DELETED_FILE) then "deleted"
            else if Shows(lines, RENAME) then "renamed"
            else "modified"
  {
    ContainsByLine(lines, NEW_FILE);
    ContainsByLine(lines, DELETED_FILE);
    ContainsByLine(lines, RENAME);
  }

  /** A status the lines show is the one parsed exactly if no line overrides it. */
  lemma {:induction false} StatusUnlessOverridden(lines: seq<string>, status: string)
    requires IsShown(lines, status)
    ensures StatusOf(Joined(lines)) == status <==> forall line :: line in lines ==> !Overrides(line, status)
  {
    StatusByLine(lines);
    StatusesDiffer();
  }

  lemma {:induction false} StatusesDiffer()
    ensures "added" != "deleted" && "added" != "renamed" && "added" != "modified"
    ensures "deleted" != "renamed" && "deleted" != "modified" && "renamed" != "modified"
  {
    assert "added"[0] != "deleted"[0] && "added"[0] != "renamed"[0] && "added"[0] != "modified"[0];
    assert "deleted"[0] != "renamed"[0] && "deleted"[0] != "modified"[0] && "renamed"[0] != "modified"[0];
  }

  lemma {:induction false} MetaIsShown(meta: seq<string>, rest: seq<string>)
    ensures IsShown(meta + rest, StatusOf(Joined(meta)))
    ensures forall line :: line in meta ==> !Overrides(line, StatusOf(Joined(meta)))
  {
    StatusByLine(meta);
    StatusesDiffer();
    assert forall line :: line in meta ==> line in meta + rest;
  }

  lemma {:induction false} DeclaredIsShown(meta: seq<string>, rest: seq<string>)
    ensures IsShown(meta + rest, DeclaredStatus(meta))
  {
    DeclaredShows(meta, rest, NEW_FILE);
    DeclaredShows(meta, rest, DELETED_FILE);
    DeclaredShows(meta, rest, RENAME);
  }

  lemma {:induction false} DeclaredShows(meta: seq<string>, rest: seq<string>, phrase: string)
    ensures Declares(meta, phrase) ==> Shows(meta + rest, phrase)
  {
    if Declares(meta, phrase) {
      var line :| line in meta && phrase <= line;
      assert line[0..] == line;
      assert line in meta + rest && Contains(line, phrase);
    }
  }

  // What arrives shows what was printed.

  /** A phrase that neither trimming nor the loss of a carriage return can cut. */
  predicate IsMark(phrase: string) {
    EndsVisibly(phrase) && '\r' !in phrase && '\n' !in phrase
  }

  lemma {:induction false} MarksAreMarks()
    ensures IsMark(NEW_FILE) && IsMark(DELETED_FILE) && IsMark(RENAME)
  {
  }

  lemma {:induction false} StrippedContains(line: string, phrase: string)
    requires IsMark(phrase)
    ensures Contains(WithoutCarriageReturn(line), phrase) <==> Contains(line, phrase)
  {
    var s := WithoutCarriageReturn(line);
    if Contains(line, phrase) {
      var i := FoundAt(line, phrase);
      assert phrase[|phrase| - 1] in phrase && line[i + |phrase| - 1] == phrase[|phrase| - 1];
      assert s[i..i + |phrase|] == line[i..i + |phrase|];
      ContainsAt(s, phrase, i);
    }
    if Contains(s, phrase) {
      var i := FoundAt(s, phrase);
      assert line[i..i + |phrase|] == s[i..i + |phrase|];
      ContainsAt(line, phrase, i);
    }
  }

  lemma {:induction false} TrimmedContains(line: string, phrase: string)
    requires IsMark(phrase)
    ensures Contains(Text.TrimEnd(line), phrase) <==> Contains(line, phrase)
  {
    var s := Text.TrimEnd(line);
    if Contains(line, phrase) {
      var i := FoundAt(line, phrase);
      assert line[i + |phrase| - 1] == phrase[|phrase| - 1];
      assert s[i..i + |phrase|] == line[i..i + |phrase|];
      ContainsAt(s, phrase, i);
    }
    if Contains(s, phrase) {
      var i := FoundAt(s, phrase);
      assert line[i..i + |phrase|] == s[i..i + |phrase|];
      ContainsAt(line, phrase, i);
    }
  }

  lemma {:induction false} BlankContainsNone(line: string, phrase: string)
    requires IsMark(phrase) && Text.IsBlank(line)
    ensures !Contains(line, phrase)
  {
    TrimEndBlank(line);
    TrimmedContains(line, phrase);
  }

  lemma {:induction false} ShowsLast(init: seq<string>, last: string, phrase: string)
    ensures Shows(init + [last], phrase) <==> Shows(init, phrase) || Contains(last, phrase)
  {
    assert forall line :: line in init + [last] <==> line in init || line == last;
  }

  lemma {:induction false} SeenShows(lines: seq<string>, phrase: string)
    requires IsMark(phrase)
    ensures Shows(Seen(lines), phrase) <==> Shows(lines, phrase)
  {
    if lines != [] {
      var init, last := lines[..|lines| - 1], lines[|lines| - 1];
      SeenShows(init, phrase);
      InitAndLast(lines);
      SeenSplits(init, [last]);
      SeenOne(last);
      StrippedContains(last, phrase);
      ShowsLast(init, last, phrase);
      ShowsLast(Seen(init), WithoutCarriageReturn(last), phrase);
    }
  }

  lemma {:induction false} TrimmedShows(lines: seq<string>, phrase: string)
    requires IsMark(phrase)
    ensures Shows(TrimLines(lines), phrase) <==> Shows(lines, phrase)
  {
    if lines != [] {
      var init, last := lines[..|lines| - 1], lines[|lines| - 1];
      InitAndLast(lines);
      ShowsLast(init, last, phrase);
      if Text.IsBlank(last) {
        TrimmedShows(init, phrase);
        BlankContainsNone(last, phrase);
      } else {
        TrimmedContains(last, phrase);
        ShowsLast(init, Text.TrimEnd(last), phrase);
      }
    }
  }

  /** Trimming and carriage returns make no difference to the status. */
  lemma {:induction false} StatusArrives(f: PatchFile, isLast: bool)
    ensures StatusOf(Joined(Seen(ArrivedBody(f, isLast)))) == StatusOf(Joined(BodyLines(f)))
  {
    MarksAreMarks();
    StatusByLine(BodyLines(f));
    StatusByLine(Seen(ArrivedBody(f, isLast)));
    ShowsArrive(f, isLast, NEW_FILE);
    ShowsArrive(f, isLast, DELETED_FILE);
    ShowsArrive(f, isLast, RENAME);
  }

  lemma {:induction false} ShowsArrive(f: PatchFile, isLast: bool, phrase: string)
    requires IsMark(phrase)
    ensures Shows(Seen(ArrivedBody(f, isLast)), phrase) <==> Shows(BodyLines(f), phrase)
  {
    SeenShows(ArrivedBody(f, isLast), phrase);
    TrimmedShows(BodyLines(f), phrase);
  }

  /**
   The status parsed for a printed file is the one its header lines give exactly if no hunk header and
   no hunk line has a phrase that the parser takes for more.
   */
  lemma {:induction false} StatusOfHeader(f: PatchFile)
    ensures StatusOf(Joined(BodyLines(f))) == StatusOf(Joined(f.meta))
       <==> forall line :: line in HunkLines(f.hunks) ==> !Overrides(line, StatusOf(Joined(f.meta)))
  {
    MetaIsShown(f.meta, HunkLines(f.hunks));
    StatusUnlessOverridden(BodyLines(f), StatusOf(Joined(f.meta)));
    assert forall line :: line in BodyLines(f) <==> line in f.meta || line in HunkLines(f.hunks);
  }

  /** It is the one git declares exactly if no line at all, path lines included, has such a phrase. */
  lemma {:induction false} StatusAsDeclared(f: PatchFile)
    ensures StatusOf(Joined(BodyLines(f))) == DeclaredStatus(f.meta)
       <==> forall line :: line in BodyLines(f) ==> !Overrides(line, DeclaredStatus(f.meta))
  {
    DeclaredIsShown(f.meta, HunkLines(f.hunks));
    StatusUnlessOverridden(BodyLines(f), DeclaredStatus(f.meta));
  }

  /** When parsing a printed patch gets the status of each of its files right. */
  lemma {:induction false} StatusIsExact(files: seq<PatchFile>, before: string, after: string, i: nat)
    requires forall f :: f in files ==> IsPrintable(f)
    requires i < |files|
    requires Text.IsBlank(before) && Text.IsBlank(after)
    ensures |Parsed(before + PrintPatch(files) + after)| == |files|
    ensures
      var (f, parsed) := (files[i], Parsed(before + PrintPatch(files) + after)[i]);
      && (parsed.status == StatusOf(Joined(f.meta))
          <==> forall line :: line in HunkLines(f.hunks) ==> !Overrides(line, StatusOf(Joined(f.meta))))
      && (parsed.status == DeclaredStatus(f.meta)
          <==> forall line :: line in BodyLines(f) ==> !Overrides(line, DeclaredStatus(f.meta)))
  {
    ParseUndoesPrint(files, before, after);
    StatusArrives(files[i], i == |files| - 1);
    StatusOfHeader(files[i]);
    StatusAsDeclared(files[i]);
  }
}
