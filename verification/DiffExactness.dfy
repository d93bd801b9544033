/**
 When the hunks of a printed patch come back as they were (crates/ajax-core/src/diff_review.rs:371-372,
 401-406, 432-441).  Each of the three losses on the way only makes hunks lighter, so nothing makes up for
 what another took.
 */
module DiffExactness {
  import opened DiffParser
  import opened DiffPrinting
  import opened DiffRoundTrip
  import opened Sequences
  import Text

  predicate KeepsEveryLine(hunks: seq<DiffHunk>) {
    forall h :: h in hunks ==> forall line :: line in h.lines ==> IsKept(line)
  }

  predicate EndsInReturn(line: string) {
    line != [] && line[|line| - 1] == '\r'
  }

  predicate HasNoReturns(hunks: seq<DiffHunk>) {
    forall h :: h in hunks ==> !EndsInReturn(h.header) && forall line :: line in h.lines ==> !EndsInReturn(line)
  }

  function WeightOf(lines: seq<string>): nat {
    if lines == [] then 0 else WeightOf(lines[..|lines| - 1]) + 1 + |lines[|lines| - 1]|
  }

  function HunkWeight(h: DiffHunk): nat {
    1 + |h.header| + WeightOf(h.lines)
  }

  function Weight(hunks: seq<DiffHunk>): nat {
    if hunks == [] then 0 else HunkWeight(hunks[0]) + Weight(hunks[1..])
  }

  lemma {:induction false} WeightSplits(init: seq<DiffHunk>, last: DiffHunk)
    ensures Weight(init + [last]) == Weight(init) + HunkWeight(last)
  {
    if init == [] {
      assert init + [last] == [last] && [last][1..] == [];
    } else {
      assert (init + [last])[1..] == init[1..] + [last];
      WeightSplits(init[1..], last);
    }
  }

  lemma {:induction false} WeightOfLast(init: seq<string>, last: string)
    ensures WeightOf(init + [last]) == WeightOf(init) + 1 + |last|
  {
    assert (init + [last])[..|init|] == init;
  }

  // Dropped lines.

  lemma {:induction false} KeptLighter(lines: seq<string>)
    ensures WeightOf(Kept(lines)) <= WeightOf(lines)
    ensures WeightOf(Kept(lines)) == WeightOf(lines) ==> Kept(lines) == lines
  {
    if lines != [] {
      var init, last := lines[..|lines| - 1], lines[|lines| - 1];
      KeptLighter(init);
      InitAndLast(lines);
      WeightOfLast(init, last);
      WeightOfLast(Kept(init), last);
      assert Kept(init) + [] == Kept(init);
      assert Kept(lines) == if IsKept(last) then Kept(init) + [last] else Kept(init);
    }
  }

  lemma {:induction false} KeptWhole(lines: seq<string>)
    ensures Kept(lines) == lines <==> forall line :: line in lines ==> IsKept(line)
  {
    if lines != [] {
      var init, last := lines[..|lines| - 1], lines[|lines| - 1];
      KeptWhole(init);
      InitAndLast(lines);
      assert last in lines && forall line :: line in lines <==> line in init || line == last;
      KeptIsShorter(init);
      LastAppended(Kept(init), init, last);
    }
  }

  lemma {:induction false} LastAppended<T>(a: seq<T>, b: seq<T>, x: T)
    ensures a + [x] == b + [x] <==> a == b
  {
    assert (a + [x])[..|a|] == a && (b + [x])[..|b|] == b;
    assert |a + [x]| == |a| + 1 && |b + [x]| == |b| + 1;
  }

  lemma {:induction false} KeptIsShorter(lines: seq<string>)
    ensures |Kept(lines)| <= |lines|
  {
    if lines != [] {
      KeptIsShorter(lines[..|lines| - 1]);
    }
  }

  lemma {:induction false} ConsEqual<T>(x: T, rest: seq<T>, all: seq<T>)
    requires all != []
    ensures [x] + rest == all <==> x == all[0] && rest == all[1..]
  {
    assert ([x] + rest)[0] == x && ([x] + rest)[1..] == rest;
    assert all == [all[0]] + all[1..];
  }

  lemma {:induction false} KeepsSplits(hunks: seq<DiffHunk>)
    requires hunks != []
    ensures KeepsEveryLine(hunks)
       <==> (forall line :: line in hunks[0].lines ==> IsKept(line)) && KeepsEveryLine(hunks[1..])
  {
    assert hunks[0] in hunks;
    assert forall h :: h in hunks <==> h == hunks[0] || h in hunks[1..];
  }

  lemma {:induction false} KeptHunksLighter(hunks: seq<DiffHunk>)
    ensures Weight(KeptHunks(hunks)) <= Weight(hunks)
    ensures Weight(KeptHunks(hunks)) == Weight(hunks) ==> KeptHunks(hunks) == hunks
    ensures KeptHunks(hunks) == hunks <==> KeepsEveryLine(hunks)
  {
    if hunks != [] {
      var h, rest := hunks[0], KeptHunks(hunks[1..]);
      KeptLighter(h.lines);
      KeptWhole(h.lines);
      KeptHunksLighter(hunks[1..]);
      KeepsSplits(hunks);
      ConsEqual(h.(lines := Kept(h.lines)), rest, hunks);
      assert KeptHunks(hunks)[1..] == rest;
    }
  }

  // Carriage returns.

  lemma {:induction false} SeenLighter(lines: seq<string>)
    ensures |Seen(lines)| == |lines| && WeightOf(Seen(lines)) <= WeightOf(lines)
    ensures WeightOf(Seen(lines)) == WeightOf(lines) ==> Seen(lines) == lines
    ensures Seen(lines) == lines <==> forall line :: line in lines ==> !EndsInReturn(line)
  {
    if lines != [] {
      var init, last := lines[..|lines| - 1], lines[|lines| - 1];
      SeenLighter(init);
      InitAndLast(lines);
      assert last in lines && forall line :: line in lines <==> line in init || line == last;
      SeenSplits(init, [last]);
      SeenOne(last);
      WeightOfLast(init, last);
      WeightOfLast(Seen(init), WithoutCarriageReturn(last));
    }
  }

  lemma {:induction false} SeenOne(line: string)
    ensures Seen([line]) == [WithoutCarriageReturn(line)]
  {
    assert [line][1..] == [];
  }

  lemma {:induction false} ReturnsSplit(hunks: seq<DiffHunk>)
    requires hunks != []
    ensures HasNoReturns(hunks)
       <==> !EndsInReturn(hunks[0].header) && (forall line :: line in hunks[0].lines ==> !EndsInReturn(line))
            && HasNoReturns(hunks[1..])
  {
    assert hunks[0] in hunks;
    assert forall h :: h in hunks <==> h == hunks[0] || h in hunks[1..];
  }

  lemma {:induction false} SeenHunkLighter(h: DiffHunk)
    ensures HunkWeight(SeenHunk(h)) <= HunkWeight(h)
    ensures HunkWeight(SeenHunk(h)) == HunkWeight(h) ==> SeenHunk(h) == h
    ensures SeenHunk(h) == h <==> !EndsInReturn(h.header) && forall line :: line in h.lines ==> !EndsInReturn(line)
  {
    SeenLighter(h.lines);
  }

  lemma {:induction false} SeenHunksLighter(hunks: seq<DiffHunk>)
    ensures Weight(SeenHunks(hunks)) <= Weight(hunks)
    ensures Weight(SeenHunks(hunks)) == Weight(hunks) ==> SeenHunks(hunks) == hunks
    ensures SeenHunks(hunks) == hunks <==> HasNoReturns(hunks)
  {
    if hunks != [] {
      var rest := SeenHunks(hunks[1..]);
      SeenHunkLighter(hunks[0]);
      SeenHunksLighter(hunks[1..]);
      ReturnsSplit(hunks);
      ConsEqual(SeenHunk(hunks[0]), rest, hunks);
      assert SeenHunks(hunks)[1..] == rest;
    }
  }

  // Trimming.

  lemma {:induction false} TrimLinesLighter(lines: seq<string>)
    ensures WeightOf(TrimLines(lines)) <= WeightOf(lines)
    ensures WeightOf(TrimLines(lines)) == WeightOf(lines) ==> TrimLines(lines) == lines
    ensures lines != [] ==> (TrimLines(lines) == lines <==> EndsVisibly(lines[|lines| - 1]))
  {
    if lines != [] {
      var init, last := lines[..|lines| - 1], lines[|lines| - 1];
      InitAndLast(lines);
      WeightOfLast(init, last);
      if Text.IsBlank(last) {
        TrimLinesLighter(init);
        BlankEndsInvisibly(last);
      } else {
        WeightOfLast(init, Text.TrimEnd(last));
        TrimEndVisible(last);
      }
    }
  }

  lemma {:induction false} BlankEndsInvisibly(line: string)
    requires Text.IsBlank(line)
    ensures !EndsVisibly(line)
  {
    if line != [] {
      assert line[|line| - 1] in line;
    }
  }

  /** The last line of a hunk, its header if it has no other. */
  function LastLine(h: DiffHunk): string {
    if h.lines == [] then h.header else h.lines[|h.lines| - 1]
  }

  lemma {:induction false} TrimHunkLighter(h: DiffHunk)
    requires IsHunkStart(h.header)
    ensures Weight(TrimHunk(h)) <= HunkWeight(h)
    ensures Weight(TrimHunk(h)) == HunkWeight(h) ==> TrimHunk(h) == [h]
    ensures TrimHunk(h) == [h] <==> EndsVisibly(LastLine(h))
  {
    TrimLinesLighter(h.lines);
    TrimEndVisible(h.header);
    assert forall x: DiffHunk :: [x][1..] == [];
    assert forall x: DiffHunk :: Weight([x]) == HunkWeight(x) + Weight([]);
  }

  lemma {:induction false} TrimHunksLighter(hunks: seq<DiffHunk>)
    requires forall h :: h in hunks ==> IsHunkStart(h.header)
    ensures Weight(TrimHunks(hunks)) <= Weight(hunks)
    ensures Weight(TrimHunks(hunks)) == Weight(hunks) ==> TrimHunks(hunks) == hunks
    ensures hunks != [] ==> (TrimHunks(hunks) == hunks <==> EndsVisibly(LastLine(hunks[|hunks| - 1])))
  {
    if hunks != [] {
      var init, h := hunks[..|hunks| - 1], hunks[|hunks| - 1];
      InitAndLast(hunks);
      assert h in hunks;
      TrimHunkLighter(h);
      WeightSplits(init, h);
      LastReplaced(init, h, TrimHunk(h));
      if TrimHunk(h) == [] {
        assert init + [] == init;
      } else {
        assert TrimHunk(h) == [TrimHunk(h)[0]] && [TrimHunk(h)[0]][1..] == [];
        WeightSplits(init, TrimHunk(h)[0]);
      }
    }
  }

  lemma {:induction false} LastReplaced<T>(init: seq<T>, x: T, y: seq<T>)
    ensures init + y == init + [x] <==> y == [x]
  {
    assert (init + y)[|init|..] == y && (init + [x])[|init|..] == [x];
  }

  // The round trip.

  /** The hunks of a file come back if nothing of them is lost on the way. */
  lemma {:induction false} ReportedExactly(hunks: seq<DiffHunk>, isLast: bool)
    requires forall h :: h in hunks ==> IsHunkStart(h.header)
    ensures ReportedHunks(hunks, isLast) == hunks
       <==> KeepsEveryLine(hunks) && HasNoReturns(hunks)
            && (isLast && hunks != [] ==> EndsVisibly(LastLine(hunks[|hunks| - 1])))
  {
    var arrived := if isLast then TrimHunks(hunks) else hunks;
    TrimHunksLighter(hunks);
    SeenHunksLighter(arrived);
    KeptHunksLighter(SeenHunks(arrived));
  }

  lemma {:induction false} LastPrintedLine(files: seq<PatchFile>)
    requires files != [] && files[|files| - 1].hunks != []
    ensures
      var hunks := files[|files| - 1].hunks;
      PatchLines(files) != [] && PatchLines(files)[|PatchLines(files)| - 1] == LastLine(hunks[|hunks| - 1])
  {
    var first, rest := FileLines(files[0]), PatchLines(files[1..]);
    assert PatchLines(files) == first + rest;
    if |files| == 1 {
      LastFileLine(files[0]);
      assert rest == [] && first + rest == first;
    } else {
      LastPrintedLine(files[1..]);
      assert (first + rest)[|first + rest| - 1] == rest[|rest| - 1];
    }
  }

  lemma {:induction false} LastFileLine(f: PatchFile)
    requires f.hunks != []
    ensures FileLines(f)[|FileLines(f)| - 1] == LastLine(f.hunks[|f.hunks| - 1])
  {
    var init, h := f.hunks[..|f.hunks| - 1], f.hunks[|f.hunks| - 1];
    InitAndLast(f.hunks);
    HunkLinesAppended(init, h);
    var tail := [h.header] + h.lines;
    assert tail[|tail| - 1] == LastLine(h);
    Associative([HeaderLine(f)] + f.meta, HunkLines(init), tail);
  }

  lemma {:induction false} PrintEndsVisibly(files: seq<PatchFile>)
    requires files != [] && files[|files| - 1].hunks != []
    ensures
      var hunks := files[|files| - 1].hunks;
      EndsVisibly(PrintPatch(files)) <==> EndsVisibly(LastLine(hunks[|hunks| - 1]))
  {
    LastPrintedLine(files);
    JoinedEndsVisibly(PatchLines(files));
  }

  /** The hunks of file i of the patch suffer none of the three losses. */
  ghost predicate LosesNothing(files: seq<PatchFile>, i: nat)
    requires i < |files|
  {
    && KeepsEveryLine(files[i].hunks) && HasNoReturns(files[i].hunks)
    && (i < |files| - 1 || files[i].hunks == [] || EndsVisibly(PrintPatch(files)))
  }

  lemma {:induction false} ReportedWhole(files: seq<PatchFile>, i: nat)
    requires i < |files| && IsPrintable(files[i])
    ensures Reported(files[i], i == |files| - 1).hunks == files[i].hunks <==> LosesNothing(files, i)
  {
    ReportedExactly(files[i].hunks, i == |files| - 1);
    if i == |files| - 1 && files[i].hunks != [] {
      PrintEndsVisibly(files);
    }
  }

  lemma {:induction false} AllReportedWhole(files: seq<PatchFile>)
    requires forall f :: f in files ==> IsPrintable(f)
    ensures forall i :: 0 <= i < |files| ==> AllReported(files)[i].path == files[i].path
    ensures forall i :: 0 <= i < |files| ==> (AllReported(files)[i].hunks == files[i].hunks <==> LosesNothing(files, i))
  {
    forall i | 0 <= i < |files|
      ensures AllReported(files)[i].hunks == files[i].hunks <==> LosesNothing(files, i)
    {
      ReportedWhole(files, i);
    }
  }

  /**
   A printed patch comes back with its files and paths in order, and a file with its hunks exactly if
   each of their lines starts with a space, a single + or a single -, none of them and no hunk header
   ends in a carriage return, and, if the file is the last one, the patch does not end in whitespace.
   */
  lemma {:induction false} RoundTripIsExact(files: seq<PatchFile>)
    requires forall f :: f in files ==> IsPrintable(f)
    ensures |Parsed(PrintPatch(files))| == |files|
    ensures forall i :: 0 <= i < |files| ==> Parsed(PrintPatch(files))[i].path == files[i].path
    ensures forall i :: 0 <= i < |files| ==>
              (Parsed(PrintPatch(files))[i].hunks == files[i].hunks <==> LosesNothing(files, i))
  {
    PrintedAlone(files);
    AllReportedWhole(files);
  }
}
