/**
 The text of a printed patch: how it is cut into lines and sections again, and what trimming leaves of it
 (crates/ajax-core/src/diff_review.rs:371-402).
 */
module DiffPrinting {
  import opened DiffParser
  import opened Sequences
  import Text

  // Lines.

  predicate IsOneLine(line: string) {
    '\n' !in line
  }

  predicate EndsVisibly(t: string) {
    t != [] && !Text.IsWhitespace(t[|t| - 1])
  }

  /** The lines, each with its line feed. */
  function Block(lines: seq<string>): string {
    if lines == [] then [] else lines[0] + "\n" + Block(lines[1..])
  }

  /** The lines as str::lines gives them out: without a carriage return at the end. */
  function Seen(lines: seq<string>): seq<string> {
    if lines == [] then [] else [WithoutCarriageReturn(lines[0])] + Seen(lines[1..])
  }

  lemma {:induction false} FirstNewlineAt(line: string, rest: string)
    requires '\n' !in line
    ensures FirstNewline(line + "\n" + rest) == |line|
  {
    var s := line + "\n" + rest;
    if line != [] {
      assert s[1..] == line[1..] + "\n" + rest;
      assert s[0] == line[0] && line[0] in line;
      FirstNewlineAt(line[1..], rest);
    }
  }

  lemma {:induction false} LinesCons(line: string, rest: string)
    requires IsOneLine(line)
    ensures Lines(line + "\n" + rest) == [WithoutCarriageReturn(line)] + Lines(rest)
  {
    var s := line + "\n" + rest;
    FirstNewlineAt(line, rest);
    assert s[..|line|] == line && s[|line| + 1..] == rest;
  }

  lemma {:induction false} LinesOfBlock(lines: seq<string>, rest: string)
    requires forall line :: line in lines ==> IsOneLine(line)
    ensures Lines(Block(lines) + rest) == Seen(lines) + Lines(rest)
  {
    if lines == [] {
      assert Block(lines) + rest == rest && Seen(lines) + Lines(rest) == Lines(rest);
    } else {
      var tail := Block(lines[1..]) + rest;
      assert Block(lines) + rest == lines[0] + "\n" + tail;
      assert lines[0] in lines;
      LinesCons(lines[0], tail);
      LinesOfBlock(lines[1..], rest);
      Associative([WithoutCarriageReturn(lines[0])], Seen(lines[1..]), Lines(rest));
    }
  }

  lemma {:induction false} JoinedIsBlock(lines: seq<string>, rest: seq<string>)
    requires rest != []
    ensures Joined(lines + rest) == Block(lines) + Joined(rest)
  {
    if lines == [] {
      assert lines + rest == rest && Block(lines) + Joined(rest) == Joined(rest);
    } else {
      assert (lines + rest)[1..] == lines[1..] + rest;
      JoinedIsBlock(lines[1..], rest);
      assert lines[0] + "\n" + (Block(lines[1..]) + Joined(rest)) == Block(lines) + Joined(rest);
    }
  }

  lemma {:induction false} JoinedLast(init: seq<string>, last: string)
    ensures Joined(init + [last]) == Block(init) + last
  {
    JoinedIsBlock(init, [last]);
  }

  lemma {:induction false} OneLine(line: string)
    requires EndsVisibly(line) && '\n' !in line
    ensures Lines(line) == [line] && Seen([line]) == [line]
  {
    var n := FirstNewline(line);
    assert forall i :: 0 <= i < |line| ==> line[i] != '\n';
    assert Text.IsWhitespace('\r');
    assert [line][1..] == [];
  }

  lemma {:induction false} SeenSplits(a: seq<string>, b: seq<string>)
    ensures Seen(a + b) == Seen(a) + Seen(b)
  {
    if a == [] {
      assert a + b == b && Seen(a) + Seen(b) == Seen(b);
    } else {
      assert (a + b)[1..] == a[1..] + b;
      SeenSplits(a[1..], b);
      Associative([WithoutCarriageReturn(a[0])], Seen(a[1..]), Seen(b));
    }
  }

  /** Joined lines split into themselves as seen, if the last one ends visibly. */
  lemma {:induction false} LinesOfJoined(lines: seq<string>)
    requires forall line :: line in lines ==> IsOneLine(line)
    requires lines != [] && EndsVisibly(lines[|lines| - 1])
    ensures Lines(Joined(lines)) == Seen(lines)
  {
    var init, last := lines[..|lines| - 1], lines[|lines| - 1];
    InitAndLast(lines);
    assert last in lines && forall line :: line in init ==> line in lines;
    JoinedLast(init, last);
    LinesOfBlock(init, last);
    OneLine(last);
    SeenSplits(init, [last]);
  }

  lemma {:induction false} BlockEnds(lines: seq<string>)
    requires lines != []
    ensures |Block(lines)| > 0 && Block(lines)[|Block(lines)| - 1] == '\n'
  {
    if |lines| > 1 {
      BlockEnds(lines[1..]);
    } else {
      assert Block(lines[1..]) == [];
    }
  }

  lemma {:induction false} JoinedEndsVisibly(lines: seq<string>)
    requires lines != []
    ensures EndsVisibly(Joined(lines)) <==> EndsVisibly(lines[|lines| - 1])
  {
    var init, last := lines[..|lines| - 1], lines[|lines| - 1];
    InitAndLast(lines);
    JoinedLast(init, last);
    assert Text.IsWhitespace('\n');
    if init != [] {
      BlockEnds(init);
    }
  }

  // Trimming.

  /** The lines without the blank ones at the end, and the last of the others without blanks at its end. */
  function TrimLines(lines: seq<string>): seq<string> {
    if lines == [] then []
    else if Text.IsBlank(lines[|lines| - 1]) then TrimLines(lines[..|lines| - 1])
    else lines[..|lines| - 1] + [Text.TrimEnd(lines[|lines| - 1])]
  }

  lemma {:induction false} TrimStartSkips(before: string, s: string)
    requires Text.IsBlank(before) && (s == [] || !Text.IsWhitespace(s[0]))
    ensures Text.TrimStart(before + s) == s
  {
    if before == [] {
      assert before + s == s;
    } else {
      assert (before + s)[1..] == before[1..] + s;
      assert before[0] in before;
      TrimStartSkips(before[1..], s);
    }
  }

  lemma {:induction false} TrimEndBlank(s: string)
    ensures Text.TrimEnd(s) == [] <==> Text.IsBlank(s)
  {
    if s != [] {
      var init, last := s[..|s| - 1], s[|s| - 1];
      InitAndLast(s);
      assert last in s && forall c :: c in s <==> c in init || c == last;
      TrimEndBlank(init);
    }
  }

  lemma {:induction false} TrimEndSkips(s: string, after: string)
    requires Text.IsBlank(after)
    ensures Text.TrimEnd(s + after) == Text.TrimEnd(s)
  {
    if after == [] {
      assert s + after == s;
    } else {
      var init, last := after[..|after| - 1], after[|after| - 1];
      assert (s + after)[..|s + after| - 1] == s + init;
      assert last in after;
      TrimEndSkips(s, init);
    }
  }

  /** Trimming the end of a text stays within its last part that is not blank. */
  lemma {:induction false} TrimEndWithin(p: string, s: string)
    requires !Text.IsBlank(s)
    ensures Text.TrimEnd(p + s) == p + Text.TrimEnd(s)
  {
    var init, last := s[..|s| - 1], s[|s| - 1];
    InitAndLast(s);
    if Text.IsWhitespace(last) {
      assert !Text.IsBlank(init);
      assert (p + s)[..|p + s| - 1] == p + init;
      TrimEndWithin(p, init);
    }
  }

  lemma {:induction false} TrimEndVisible(s: string)
    ensures Text.TrimEnd(s) == s <==> s == [] || EndsVisibly(s)
    ensures !Text.IsBlank(s) ==> EndsVisibly(Text.TrimEnd(s))
  {
    TrimEndBlank(s);
  }

  /** Trimming the joined lines is joining the trimmed ones. */
  lemma {:induction false} TrimJoined(lines: seq<string>, after: string)
    requires Text.IsBlank(after)
    ensures Text.TrimEnd(Joined(lines) + after) == Joined(TrimLines(lines))
    decreases |lines|
  {
    if lines == [] {
      assert Joined(lines) + after == after;
      TrimEndBlank(after);
    } else {
      var init, last := lines[..|lines| - 1], lines[|lines| - 1];
      InitAndLast(lines);
      JoinedLast(init, last);
      if !Text.IsBlank(last) {
        TrimEndSkips(Block(init) + last, after);
        TrimEndWithin(Block(init), last);
        JoinedLast(init, Text.TrimEnd(last));
      } else if init == [] {
        assert Block(init) + last + after == last + after;
        TrimEndBlank(last + after);
        assert TrimLines(init) == [];
      } else {
        BlockIsJoined(init);
        assert Block(init) + last + after == Joined(init) + ("\n" + last + after);
        assert Text.IsBlank("\n" + last + after);
        TrimJoined(init, "\n" + last + after);
      }
    }
  }

  lemma {:induction false} BlockIsJoined(lines: seq<string>)
    requires lines != []
    ensures Block(lines) == Joined(lines) + "\n"
  {
    if |lines| == 1 {
      assert Block(lines[1..]) == [];
    } else {
      BlockIsJoined(lines[1..]);
    }
  }

  /** Trimming reaches the earlier lines only if nothing is left of the later ones. */
  lemma {:induction false} TrimAppended(a: seq<string>, b: seq<string>)
    ensures TrimLines(a + b) == if TrimLines(b) != [] then a + TrimLines(b) else TrimLines(a)
  {
    if b == [] {
      assert a + b == a;
    } else {
      var init, last := b[..|b| - 1], b[|b| - 1];
      assert (a + b)[..|a + b| - 1] == a + init;
      if Text.IsBlank(last) {
        TrimAppended(a, init);
      } else {
        Associative(a, init, [Text.TrimEnd(last)]);
      }
    }
  }

  lemma {:induction false} TrimLinesEnd(lines: seq<string>)
    requires TrimLines(lines) != []
    ensures EndsVisibly(TrimLines(lines)[|TrimLines(lines)| - 1])
  {
    if Text.IsBlank(lines[|lines| - 1]) {
      TrimLinesEnd(lines[..|lines| - 1]);
    } else {
      TrimEndVisible(lines[|lines| - 1]);
    }
  }

  lemma {:induction false} TrimLinesShorten(lines: seq<string>, line: string)
    requires line in TrimLines(lines)
    ensures exists whole :: whole in lines && line <= whole
  {
    var init, last := lines[..|lines| - 1], lines[|lines| - 1];
    InitAndLast(lines);
    if Text.IsBlank(last) {
      TrimLinesShorten(init, line);
      var whole :| whole in init && line <= whole;
      assert whole in lines;
    } else if line in init {
      assert line in lines;
    } else {
      assert line == Text.TrimEnd(last) <= last && last in lines;
    }
  }

  // Sections.

  lemma {:induction false} NotAHeader(line: string, rest: string)
    requires '\n' !in line && !(FILE_HEADER <= line)
    requires rest == [] || rest[0] == '\n'
    ensures !(FILE_HEADER <= line + rest)
  {
    var s := line + rest;
    var n := |FILE_HEADER|;
    assert n <= |line| ==> s[..n] == line[..n];
    assert |line| < n ==> FILE_HEADER[|line|] != '\n';
    assert rest != [] ==> s[|line|] == '\n';
  }

  /** No section starts inside a line. */
  lemma {:induction false} NoStartInside(t: string, at: nat, line: string, k: nat)
    requires at + |line| <= |t| && t[at..at + |line|] == line && '\n' !in line
    requires at < k <= at + |line|
    ensures !IsStart(t, k)
  {
    assert t[k - 1] == t[at..at + |line|][k - 1 - at];
    assert line[k - 1 - at] in line;
  }

  /** No section starts anywhere in lines that are not headers. */
  lemma {:induction false} NoStartInLines(t: string, at: nat, lines: seq<string>, k: nat)
    requires at + |Block(lines)| <= |t| && t[at..at + |Block(lines)|] == Block(lines)
    requires forall line :: line in lines ==> '\n' !in line && !(FILE_HEADER <= line)
    requires at <= k < at + |Block(lines)|
    ensures !IsStart(t, k)
    decreases |lines|
  {
    var line, tail := lines[0], Block(lines[1..]);
    var next := at + |line| + 1;
    assert Block(lines) == line + "\n" + tail;
    assert t[at..at + |line|] == Block(lines)[..|line|] == line;
    if k == at {
      assert t[at..] == line + t[at + |line|..];
      assert t[at + |line|] == Block(lines)[|line|];
      NotAHeader(line, t[at + |line|..]);
    } else if k < next {
      NoStartInside(t, at, line, k);
    } else {
      assert t[next..next + |tail|] == Block(lines)[|line| + 1..] == tail;
      NoStartInLines(t, next, lines[1..], k);
    }
  }

  lemma {:induction false} NextStartIs(t: string, i: nat, j: nat)
    requires i <= j <= |t|
    requires forall k :: i <= k < j ==> !IsStart(t, k)
    requires j < |t| ==> IsStart(t, j)
    ensures NextStart(t, i) == j
    decreases j - i
  {
    if i < j {
      assert !IsStart(t, i);
      NextStartIs(t, i + 1, j);
    }
  }

  predicate IsSectionLines(lines: seq<string>) {
    && lines != [] && FILE_HEADER <= lines[0]
    && (forall line :: line in lines ==> IsOneLine(line))
    && (forall line :: line in lines[1..] ==> !(FILE_HEADER <= line))
  }

  lemma {:induction false} NoStartInSection(lines: seq<string>, rest: string, k: nat)
    requires IsSectionLines(lines) && 1 <= k < |Block(lines)|
    ensures !IsStart(Block(lines) + rest, k)
  {
    var t, first, tail := Block(lines) + rest, lines[0], Block(lines[1..]);
    assert Block(lines) == first + "\n" + tail;
    assert first in lines;
    if k <= |first| {
      assert t[0..|first|] == first;
      NoStartInside(t, 0, first, k);
    } else {
      var at := |first| + 1;
      assert t[at..at + |tail|] == tail;
      forall line | line in lines[1..]
        ensures '\n' !in line
      {
        assert line in lines;
      }
      NoStartInLines(t, at, lines[1..], k);
    }
  }

  /** A section ends where the next one starts. */
  lemma {:induction false} SectionEnds(lines: seq<string>, rest: string)
    requires IsSectionLines(lines) && FILE_HEADER <= rest
    ensures NextStart(Block(lines) + rest, 1) == |Block(lines)|
  {
    var t, n := Block(lines) + rest, |Block(lines)|;
    forall k | 1 <= k < n
      ensures !IsStart(t, k)
    {
      NoStartInSection(lines, rest, k);
    }
    assert t[n..] == rest;
    BlockEnds(lines);
    assert t[n - 1] == Block(lines)[n - 1];
    NextStartIs(t, 1, n);
  }

  lemma {:induction false} LastSectionEnds(lines: seq<string>)
    requires IsSectionLines(lines)
    ensures NextStart(Joined(lines), 1) == |Joined(lines)|
  {
    var init, last := lines[..|lines| - 1], lines[|lines| - 1];
    var t := Joined(lines);
    assert lines == init + [last];
    JoinedIsBlock(init, [last]);
    assert t == Block(init) + last;
    assert last in lines;
    if init == [] {
      forall k | 1 <= k < |t|
        ensures !IsStart(t, k)
      {
        assert t[0..|last|] == last;
        NoStartInside(t, 0, last, k);
      }
    } else {
      var first, tail := init[0], Block(init[1..]);
      assert Block(init) == first + "\n" + tail;
      assert first in lines && first == lines[0];
      forall k | 1 <= k < |t|
        ensures !IsStart(t, k)
      {
        LastSectionHasNoStart(lines, init, last, t, k);
      }
    }
    NextStartIs(t, 1, |t|);
  }

  lemma {:induction false} LastIsNoHeader(lines: seq<string>, init: seq<string>, last: string)
    requires IsSectionLines(lines) && init != [] && lines == init + [last]
    ensures '\n' !in init[0] && '\n' !in last && !(FILE_HEADER <= last)
  {
    assert lines[0] == init[0] && lines[0] in lines && lines[|init|] == last && last in lines;
    assert lines[1..] == init[1..] + [last];
    assert last in lines[1..];
  }

  lemma {:induction false} InnerLine(lines: seq<string>, init: seq<string>, last: string, line: string)
    requires IsSectionLines(lines) && init != [] && lines == init + [last]
    requires line in init[1..]
    ensures '\n' !in line && !(FILE_HEADER <= line)
  {
    assert lines[1..] == init[1..] + [last];
    assert line in lines[1..] && line in lines;
  }

  lemma {:induction false} LastSectionHasNoStart(lines: seq<string>, init: seq<string>, last: string, t: string, k: nat)
    requires IsSectionLines(lines) && init != [] && lines == init + [last]
    requires t == Block(init) + last
    requires 1 <= k < |t|
    ensures !IsStart(t, k)
  {
    var first, tail, n := init[0], Block(init[1..]), |Block(init)|;
    assert Block(init) == first + "\n" + tail;
    LastIsNoHeader(lines, init, last);
    if k <= |first| {
      assert t[0..|first|] == first;
      NoStartInside(t, 0, first, k);
    } else if k < n {
      var at := |first| + 1;
      assert t[at..at + |tail|] == tail;
      forall line | line in init[1..]
        ensures '\n' !in line && !(FILE_HEADER <= line)
      {
        InnerLine(lines, init, last, line);
      }
      NoStartInLines(t, at, init[1..], k);
    } else if k == n {
      assert t[n..] == last + [];
      NotAHeader(last, []);
    } else {
      assert t[n..n + |last|] == last;
      NoStartInside(t, n, last, k);
    }
  }

  function Flat(sections: seq<seq<string>>): seq<string> {
    if sections == [] then [] else sections[0] + Flat(sections[1..])
  }

  /** The texts of joined sections: all but the last end with a line feed. */
  function SectionTexts(sections: seq<seq<string>>): seq<string> {
    if sections == [] then []
    else if |sections| == 1 then [Joined(sections[0])]
    else [Block(sections[0])] + SectionTexts(sections[1..])
  }

  lemma {:induction false} StartsWithHeader(sections: seq<seq<string>>)
    requires sections != [] && IsSectionLines(sections[0])
    ensures Flat(sections) != [] && FILE_HEADER <= Joined(Flat(sections))
  {
    var lines := Flat(sections);
    assert lines[0] == sections[0][0];
    if |lines| > 1 {
      assert Joined(lines) == lines[0] + "\n" + Joined(lines[1..]);
    }
  }

  /** Joined sections are cut into their texts again. */
  lemma {:induction false} SectionsSplit(sections: seq<seq<string>>)
    requires forall lines :: lines in sections ==> IsSectionLines(lines)
    ensures SplitSections(Joined(Flat(sections))) == SectionTexts(sections)
  {
    if sections != [] {
      var lines, t := sections[0], Joined(Flat(sections));
      assert lines in sections;
      StartsWithHeader(sections);
      if |sections| == 1 {
        assert Flat(sections[1..]) == [];
        assert Flat(sections) == lines;
        LastSectionEnds(lines);
        assert t[..|t|] == t && t[|t|..] == [];
      } else {
        var rest := Joined(Flat(sections[1..]));
        assert sections[1] in sections && sections[1..][0] == sections[1];
        StartsWithHeader(sections[1..]);
        JoinedIsBlock(lines, Flat(sections[1..]));
        SectionEnds(lines, rest);
        assert t[..|Block(lines)|] == Block(lines) && t[|Block(lines)|..] == rest;
        SectionsSplit(sections[1..]);
      }
    }
  }

  /** A section's lines, as seen, come out of its text. */
  lemma {:induction false} SectionLinesAgain(sections: seq<seq<string>>, i: nat)
    requires forall lines :: lines in sections ==> IsSectionLines(lines)
    requires i < |sections|
    requires var last := sections[|sections| - 1]; last != [] && EndsVisibly(last[|last| - 1])
    ensures |SectionTexts(sections)| == |sections|
    ensures Lines(SectionTexts(sections)[i]) == Seen(sections[i])
  {
    var lines := sections[0];
    assert lines in sections;
    if |sections| == 1 {
      LinesOfJoined(lines);
    } else {
      SectionLinesAgain(sections[1..], if i == 0 then 0 else i - 1);
      LinesOfBlock(lines, []);
      assert Block(lines) + [] == Block(lines) && Seen(lines) + [] == Seen(lines);
    }
  }
}
