/**
 What the parser makes of any text: where it cuts sections, what comes before the first, which lines of a
 hunk it keeps, and which path it reads from a header (crates/ajax-core/src/diff_review.rs:371-470).
 */
module DiffSections {
  import opened Options
  import opened DiffParser
  import opened DiffRoundTrip
  import opened Sequences
  import Text

  // Sections.

  function Flattened(sections: seq<string>): string {
    if sections == [] then [] else sections[0] + Flattened(sections[1..])
  }

  /** A file header stands at i, at the beginning of a line. */
  predicate HeaderAt(t: string, i: nat)
    requires i <= |t|
  {
    "diff --git " <= t[i..] && (i == 0 || t[i - 1] == '\n')
  }

  /** The text begins with a header and has no other. */
  ghost predicate IsOneSection(s: string) {
    "diff --git " <= s && forall i :: 0 < i <= |s| ==> !HeaderAt(s, i)
  }

  lemma {:induction false} NothingBefore(t: string, i: nat)
    requires i <= |t|
    ensures forall k :: i <= k < NextStart(t, i) ==> !HeaderAt(t, k)
    ensures NextStart(t, i) < |t| ==> HeaderAt(t, NextStart(t, i))
    ensures !HeaderAt(t, |t|)
    decreases |t| - i
  {
    assert t[|t|..] == [];
    if i < |t| && !IsStart(t, i) {
      NothingBefore(t, i + 1);
    }
  }

  lemma {:induction false} HeaderInPrefix(t: string, j: nat, i: nat)
    requires 0 < i < j <= |t|
    ensures HeaderAt(t[..j], i) ==> HeaderAt(t, i)
  {
    assert t[i..] == t[..j][i..] + t[j..];
  }

  lemma {:induction false} NoHeaderAtEnd(s: string)
    ensures !HeaderAt(s, |s|)
  {
    assert s[|s|..] == [];
  }

  lemma {:induction false} PrefixIsOneSection(t: string, j: nat)
    requires 0 < j <= |t| && "diff --git " <= t && j == NextStart(t, 1)
    ensures IsOneSection(t[..j])
  {
    NothingBefore(t, 1);
    NoHeaderAtEnd(t[..j]);
    forall i | 0 < i < j
      ensures !HeaderAt(t[..j], i)
    {
      HeaderInPrefix(t, j, i);
    }
    HeaderFits(t, j);
  }

  /** The first header is not cut off by the next. */
  lemma {:induction false} HeaderFits(t: string, j: nat)
    requires 0 < j <= |t| && "diff --git " <= t && j == NextStart(t, 1)
    ensures "diff --git " <= t[..j]
  {
    NothingBefore(t, 1);
    assert forall k :: 0 <= k < 11 ==> t[k] == "diff --git "[k] && t[k] != '\n';
    assert j >= 11;
    assert t[..j][..11] == t[..11];
  }

  lemma {:induction false} SplitNext(t: string, j: nat)
    requires t != [] && j == NextStart(t, 1)
    ensures 0 < j <= |t| && SplitSections(t) == [t[..j]] + SplitSections(t[j..])
    ensures j < |t| ==> "diff --git " <= t[j..]
  {
    NothingBefore(t, 1);
  }

  lemma {:induction false} FlattenedNext(s: string, sections: seq<string>)
    ensures Flattened([s] + sections) == s + Flattened(sections)
  {
    assert ([s] + sections)[1..] == sections;
  }

  lemma {:induction false} SplitExactly(t: string)
    requires t == [] || "diff --git " <= t
    ensures Flattened(SplitSections(t)) == t
    ensures forall s :: s in SplitSections(t) ==> IsOneSection(s)
    decreases |t|
  {
    if t != [] {
      var j := NextStart(t, 1);
      SplitNext(t, j);
      PrefixIsOneSection(t, j);
      var rest := t[j..];
      assert t == t[..j] + rest && (rest == [] <==> j == |t|);
      SplitExactly(rest);
      FlattenedNext(t[..j], SplitSections(rest));
    }
  }

  /**
   The sections of a text, exactly: cut together they are the text from the first header that begins a line,
   and each begins with a header and holds no other; the text before is dropped.
   */
  lemma {:induction false} SectionsExactly(t: string) returns (preamble: string)
    ensures t == preamble + Flattened(Sections(t))
    ensures forall i :: 0 <= i < |preamble| ==> !HeaderAt(t, i)
    ensures forall s :: s in Sections(t) ==> IsOneSection(s)
    ensures (Sections(t) == []) <==> forall i :: 0 <= i <= |t| ==> !HeaderAt(t, i)
  {
    var cut := NextStart(t, 0);
    preamble := t[..cut];
    NothingBefore(t, 0);
    TailExactly(t, cut);
    assert t == t[..cut] + t[cut..];
  }

  lemma {:induction false} TailExactly(t: string, cut: nat)
    requires cut == NextStart(t, 0)
    ensures Flattened(Sections(t)) == t[cut..]
    ensures forall s :: s in Sections(t) ==> IsOneSection(s)
    ensures Sections(t) == [] <==> cut == |t|
    ensures cut < |t| ==> HeaderAt(t, cut)
  {
    NothingBefore(t, 0);
    assert cut == |t| ==> t[cut..] == [];
    SplitExactly(t[cut..]);
  }

  // Lines of a hunk.

  /** A line is kept if it starts with a blank, or with a single or double sign: not with three. */
  lemma {:induction false} KeptExactly(line: string)
    ensures IsKept(line) <==>
      line != [] && (line[0] == ' '
                     || (line[0] == '+' && !(|line| >= 3 && line[1] == '+' && line[2] == '+'))
                     || (line[0] == '-' && !(|line| >= 3 && line[1] == '-' && line[2] == '-')))
  {
    ThreeSigns(line, '+');
    ThreeSigns(line, '-');
    assert "+" == ['+'] && "-" == ['-'] && " " == [' '];
    assert "+++" == ['+', '+', '+'] && "---" == ['-', '-', '-'];
  }

  lemma {:induction false} ThreeSigns(line: string, c: char)
    ensures [c, c, c] <= line <==> |line| >= 3 && line[0] == c && line[1] == c && line[2] == c
    ensures [c] <= line <==> |line| >= 1 && line[0] == c
  {
    if |line| >= 3 {
      assert line[..3] == [line[0], line[1], line[2]];
    }
    if |line| >= 1 {
      assert line[..1] == [line[0]];
    }
  }

  // Paths.

  lemma {:induction false} BlanksAreSkipped(blanks: string, rest: string)
    requires Text.IsBlank(blanks)
    ensures Words(blanks + rest) == Words(rest)
  {
    if blanks == [] {
      assert blanks + rest == rest;
    } else {
      assert blanks[0] in blanks && (blanks + rest)[1..] == blanks[1..] + rest;
      BlanksAreSkipped(blanks[1..], rest);
    }
  }

  lemma {:induction false} WordThenBlank(word: string, rest: string)
    requires word != [] && HasNoWhitespace(word) && rest != [] && Text.IsWhitespace(rest[0])
    ensures Words(word + rest) == [word] + Words(rest)
  {
    WordEnds(word, rest);
    assert word[0] in word;
    assert (word + rest)[..|word|] == word && (word + rest)[|word|..] == rest;
  }

  function FirstBlank(s: string): (n: nat)
    ensures n <= |s| && HasNoWhitespace(s[..n])
    ensures n < |s| ==> Text.IsWhitespace(s[n])
    ensures n == |s| <==> HasNoWhitespace(s)
  {
    if s == [] then 0
    else if Text.IsWhitespace(s[0]) then
      assert s[0] in s;
      0
    else
      var n := 1 + FirstBlank(s[1..]);
      assert s[..n] == [s[0]] + s[1..][..n - 1] && s == [s[0]] + s[1..];
      n
  }

  /** The first word of a text before a blank: one of that text, or the first of what follows. */
  lemma {:induction false} NextWord(s: string, t: string)
    requires t != [] && Text.IsWhitespace(t[0]) && Words(t) != []
    ensures Words(s + t) != [] && (Words(s + t)[0] == Words(t)[0] || |Words(s + t)[0]| <= |s|)
  {
    if s == [] {
      assert s + t == t;
    } else if Text.IsWhitespace(s[0]) {
      assert (s + t)[1..] == s[1..] + t;
      NextWord(s[1..], t);
    } else {
      assert (s + t)[|s|] == t[0];
      assert WordLength(s + t) <= |s|;
    }
  }

  /**
   The path of a header that names one file twice, as git writes it: it is read as it is exactly if it has
   no whitespace.
   */
  lemma {:induction false} HeaderPathExactly(path: string)
    ensures ExtractPath("a/" + path + " b/" + path) == Some(path) <==> HasNoWhitespace(path)
  {
    if HasNoWhitespace(path) {
      assert "a/" + path + " b/" + path == ("a/" + path) + " " + ("b/" + path);
      WordsOfHeader("a/" + path, "b/" + path);
      assert ("b/" + path)[2..] == path;
    } else {
      BlankPathIsCut(path);
    }
  }

  /** The second word of the header, if the path goes on with a blank after u: not longer than the rest, or u again. */
  lemma {:induction false} SecondWord(u: string, rest: string, again: string)
    requires HasNoWhitespace(u) && again != [] && Text.IsWhitespace(again[0])
    ensures
      var words := Words(rest + (" b/" + u + again));
      words != [] && (words[0] == "b/" + u || |words[0]| <= |rest|)
  {
    var second := "b/" + u;
    assert " b/" + u + again == " " + (second + again);
    BlanksAreSkipped(" ", second + again);
    WordThenBlank(second, again);
    NextWord(rest, " b/" + u + again);
  }

  lemma {:induction false} HeaderWords(u: string, c: char, rest: string, more: string)
    requires HasNoWhitespace(u) && Text.IsWhitespace(c)
    ensures Words("a/" + (u + [c] + rest) + more) == ["a/" + u] + Words(rest + more)
  {
    var after := [c] + (rest + more);
    assert "a/" + (u + [c] + rest) + more == ("a/" + u) + after;
    WordThenBlank("a/" + u, after);
    BlanksAreSkipped([c], rest + more);
  }

  lemma {:induction false} BlankPathIsCut(path: string)
    requires !HasNoWhitespace(path)
    ensures ExtractPath("a/" + path + " b/" + path) != Some(path)
  {
    var n := FirstBlank(path);
    var u, c, rest := path[..n], path[n], path[n + 1..];
    assert path == u + [c] + rest;
    var more := " b/" + u + ([c] + rest);
    assert "a/" + path + " b/" + path == "a/" + (u + [c] + rest) + more;
    HeaderWords(u, c, rest, more);
    SecondWord(u, rest, [c] + rest);
    assert ("b/" + u)[2..] == u;
  }
}
