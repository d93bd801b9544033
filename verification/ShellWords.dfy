/**
 Printing a command line for a POSIX shell (crates/ajax-cli/src/render.rs), and the shell reading
 it back: token recognition and quote removal of the POSIX.1-2017 Shell Command Language,
 sections 2.2.1, 2.2.2, 2.3 and 2.6.7.
 */
module ShellWords {
  import opened Options

  predicate IsSafe(c: char) {
    'A' <= c <= 'Z' || 'a' <= c <= 'z' || '0' <= c <= '9' || c in "_@%+=:,./-"
  }

  /** The word with each ' written as '\''. */
  function Escaped(word: string): string {
    if word == [] then []
    else (if word[0] == '\'' then "'\\''" else [word[0]]) + Escaped(word[1..])
  }

  function ShellQuote(word: string): string {
    if word == [] then "''"
    else if forall c :: c in word ==> IsSafe(c) then word
    else "'" + Escaped(word) + "'"
  }

  function ShellWords(words: seq<string>): string {
    if words == [] then []
    else if |words| == 1 then ShellQuote(words[0])
    else ShellQuote(words[0]) + " " + ShellWords(words[1..])
  }

  // The shell's side.

  predicate IsBlank(c: char) {
    c == ' ' || c == '\t'
  }

  /**
   Unquoted characters that start an operator, an expansion, a double-quoted string, a comment or a
   pattern: a text with one of these is more than a list of plain words.
   */
  predicate IsSpecial(c: char) {
    c in "|&;<>()$`\"\n*?[#~"
  }

  /**
   Token recognition: the raw tokens of s, continuing the token read so far (None between tokens),
   inside single quotes or not.  None when s is no list of plain words: a quote or escape is left
   open, a special character stands unquoted, or there is a NUL.
   */
  function Tokens(s: string, token: Option<string>, quoted: bool): Option<seq<string>>
    requires quoted ==> token.Some?
    decreases |s|
  {
    var sofar := if token.Some? then token.value else [];
    if s == [] then
      if quoted then None else Some(if token.Some? then [token.value] else [])
    else if s[0] == '\0' then None
    else if quoted then Tokens(s[1..], Some(sofar + [s[0]]), s[0] != '\'')
    else if s[0] == '\'' then Tokens(s[1..], Some(sofar + [s[0]]), true)
    else if s[0] == '\\' then
      if |s| == 1 || s[1] == '\0' then None
      else if s[1] == '\n' then Tokens(s[2..], token, false)
      else Tokens(s[2..], Some(sofar + s[..2]), false)
    else if IsBlank(s[0]) then
      var rest := Tokens(s[1..], None, false);
      if rest.None? then None else Some((if token.Some? then [token.value] else []) + rest.value)
    else if IsSpecial(s[0]) then None
    else Tokens(s[1..], Some(sofar + [s[0]]), false)
  }

  /** Quote removal. */
  function WithoutQuotes(token: string, quoted: bool): string {
    if token == [] then []
    else if token[0] == '\'' then WithoutQuotes(token[1..], !quoted)
    else if !quoted && token[0] == '\\' && |token| > 1 then [token[1]] + WithoutQuotes(token[2..], false)
    else [token[0]] + WithoutQuotes(token[1..], quoted)
  }

  function Words(tokens: seq<string>): seq<string> {
    if tokens == [] then [] else [WithoutQuotes(tokens[0], false)] + Words(tokens[1..])
  }

  /** The words a shell reads from s. */
  function ReadBack(s: string): Option<seq<string>> {
    var tokens := Tokens(s, None, false);
    if tokens.None? then None else Some(Words(tokens.value))
  }

  predicate NulFree(word: string) {
    '\0' !in word
  }

  lemma {:induction false} SafeIsOrdinary(c: char)
    requires IsSafe(c)
    ensures c != '\0' && c != '\'' && c != '\\' && !IsBlank(c) && !IsSpecial(c)
  {
  }

  lemma {:induction false} SafeToken(w: string, rest: string, sofar: string)
    requires forall c :: c in w ==> IsSafe(c)
    ensures Tokens(w + rest, Some(sofar), false) == Tokens(rest, Some(sofar + w), false)
  {
    if w == [] {
      assert w + rest == rest && sofar + w == sofar;
    } else {
      SafeIsOrdinary(w[0]);
      assert (w + rest)[1..] == w[1..] + rest;
      SafeToken(w[1..], rest, sofar + [w[0]]);
      assert sofar + [w[0]] + w[1..] == sofar + w;
    }
  }

  /** Reading the four characters that stand for a quote, from inside quotes back to inside quotes. */
  lemma {:induction false} EscapedQuoteToken(rest: string, sofar: string)
    ensures Tokens("'\\''" + rest, Some(sofar), true) == Tokens(rest, Some(sofar + "'\\''"), true)
  {
    var s := "'\\''" + rest;
    assert s[1..] == "\\''" + rest;
    assert s[1..][2..] == "'" + rest;
    assert s[1..][2..][1..] == rest;
    assert s[1..][..2] == "\\'";
    var t := sofar + "'" + "\\'";
    assert Tokens(s, Some(sofar), true) == Tokens(s[1..], Some(sofar + "'"), false);
    assert Tokens(s[1..], Some(sofar + "'"), false) == Tokens("'" + rest, Some(t), false);
    assert Tokens("'" + rest, Some(t), false) == Tokens(rest, Some(t + "'"), true);
    assert t + "'" == sofar + "'\\''";
  }

  lemma {:induction false} QuotedCharToken(c: char, tail: string, sofar: string)
    requires c != '\'' && c != '\0'
    ensures Tokens([c] + tail, Some(sofar), true) == Tokens(tail, Some(sofar + [c]), true)
  {
    assert ([c] + tail)[1..] == tail;
  }

  lemma {:induction false} QuotedToken(w: string, rest: string, sofar: string)
    requires NulFree(w)
    ensures Tokens(Escaped(w) + "'" + rest, Some(sofar), true)
         == Tokens(rest, Some(sofar + Escaped(w) + "'"), false)
  {
    if w == [] {
      assert Escaped(w) + "'" + rest == "'" + rest;
      assert sofar + Escaped(w) + "'" == sofar + "'";
    } else {
      var first := if w[0] == '\'' then "'\\''" else [w[0]];
      var tail := Escaped(w[1..]) + "'" + rest;
      assert Escaped(w) + "'" + rest == first + tail;
      if w[0] == '\'' {
        EscapedQuoteToken(tail, sofar);
      } else {
        assert w[0] in w;
        QuotedCharToken(w[0], tail, sofar);
      }
      QuotedToken(w[1..], rest, sofar + first);
      assert sofar + first + Escaped(w[1..]) + "'" == sofar + Escaped(w) + "'";
    }
  }

  lemma {:induction false} NoTokenYet(s: string)
    requires s != [] && (s[0] == '\'' || IsSafe(s[0]))
    ensures Tokens(s, None, false) == Tokens(s, Some([]), false)
  {
    if s[0] != '\'' {
      SafeIsOrdinary(s[0]);
    }
  }

  /** A quoted word is read as one token, whatever follows it. */
  lemma {:induction false} QuoteIsOneToken(w: string, rest: string)
    requires NulFree(w)
    ensures Tokens(ShellQuote(w) + rest, None, false) == Tokens(rest, Some(ShellQuote(w)), false)
  {
    var q := ShellQuote(w);
    NoTokenYet(q + rest);
    assert [] + q == q;
    if w != [] && forall c :: c in w ==> IsSafe(c) {
      SafeToken(w, rest, []);
    } else {
      assert q == "'" + Escaped(w) + "'";
      assert (q + rest)[1..] == Escaped(w) + "'" + rest;
      assert (q + rest)[0] == '\'';
      assert [] + [(q + rest)[0]] == "'";
      QuotedToken(w, rest, "'");
    }
  }

  lemma {:induction false} WithoutQuotesSafe(w: string)
    requires forall c :: c in w ==> IsSafe(c)
    ensures WithoutQuotes(w, false) == w
  {
    if w != [] {
      SafeIsOrdinary(w[0]);
      WithoutQuotesSafe(w[1..]);
    }
  }

  lemma {:induction false} WithoutQuotesEscaped(w: string)
    ensures WithoutQuotes(Escaped(w) + "'", true) == w
  {
    if w != [] {
      var tail := Escaped(w[1..]) + "'";
      WithoutQuotesEscaped(w[1..]);
      var e := Escaped(w) + "'";
      if w[0] == '\'' {
        assert e == "'\\''" + tail;
        assert e[1..] == "\\''" + tail && e[1..][2..] == "'" + tail && e[1..][2..][1..] == tail;
        assert WithoutQuotes(e, true) == WithoutQuotes(e[1..], false);
        assert WithoutQuotes(e[1..], false) == ['\''] + WithoutQuotes("'" + tail, false);
      } else {
        assert e == [w[0]] + tail;
        assert e[1..] == tail;
      }
    } else {
      assert Escaped(w) + "'" == "'";
    }
  }

  /** Quote removal undoes quoting, on every word. */
  lemma {:induction false} QuoteRemovalUndoesQuote(w: string)
    ensures WithoutQuotes(ShellQuote(w), false) == w
  {
    if w != [] && forall c :: c in w ==> IsSafe(c) {
      WithoutQuotesSafe(w);
    } else {
      var q := ShellQuote(w);
      assert q == "'" + Escaped(w) + "'";
      assert q[1..] == Escaped(w) + "'";
      WithoutQuotesEscaped(w);
    }
  }

  lemma {:induction false} ReadsPrinted(words: seq<string>)
    requires forall w :: w in words ==> NulFree(w)
    ensures ReadBack(ShellWords(words)) == Some(words)
  {
    if words != [] {
      var w := words[0];
      QuoteRemovalUndoesQuote(w);
      var q := ShellQuote(w);
      if |words| == 1 {
        QuoteIsOneToken(w, []);
        assert q + [] == q;
        assert Tokens(q, None, false) == Some([q]);
        assert Words([q]) == [w] + Words([q][1..]) && [q][1..] == [];
        assert words == [w] && [w] + [] == [w];
      } else {
        ReadsPrinted(words[1..]);
        ReadsOneMore(words);
      }
    }
  }

  lemma {:induction false} ReadsOneMore(words: seq<string>)
    requires |words| > 1 && NulFree(words[0])
    requires ReadBack(ShellWords(words[1..])) == Some(words[1..])
    ensures ReadBack(ShellWords(words)) == Some(words)
  {
    var w, rest := words[0], ShellWords(words[1..]);
    var q := ShellQuote(w);
    QuoteRemovalUndoesQuote(w);
    QuoteIsOneToken(w, " " + rest);
    assert ShellWords(words) == q + (" " + rest);
    assert (" " + rest)[1..] == rest;
    var tokens := Tokens(rest, None, false).value;
    assert Tokens(ShellWords(words), None, false) == Some([q] + tokens);
    assert ([q] + tokens)[1..] == tokens;
    assert Words([q] + tokens) == [w] + Words(tokens);
    assert words == [w] + words[1..];
  }

  lemma {:induction false} NulBreaksTokens(s: string, token: Option<string>, quoted: bool)
    requires quoted ==> token.Some?
    requires '\0' in s
    ensures Tokens(s, token, quoted).None?
    decreases |s|
  {
    if s[0] != '\0' {
      assert '\0' in s[1..];
      var sofar := if token.Some? then token.value else [];
      if !quoted && s[0] == '\\' {
        if |s| > 1 && s[1] != '\0' {
          assert '\0' in s[2..];
          NulBreaksTokens(s[2..], token, false);
          NulBreaksTokens(s[2..], Some(sofar + s[..2]), false);
        }
      } else {
        NulBreaksTokens(s[1..], Some(sofar + [s[0]]), if quoted then s[0] != '\'' else s[0] == '\'');
        NulBreaksTokens(s[1..], None, false);
      }
    }
  }

  lemma {:induction false} EscapedKeepsNul(w: string)
    requires '\0' in w
    ensures '\0' in Escaped(w)
  {
    if w[0] != '\0' {
      assert '\0' in w[1..];
      EscapedKeepsNul(w[1..]);
    }
  }

  lemma {:induction false} PrintedKeepsNul(words: seq<string>, w: string)
    requires w in words && !NulFree(w)
    ensures '\0' in ShellWords(words)
  {
    if words[0] == w {
      EscapedKeepsNul(w);
      assert '\0' in ShellQuote(w) by {
        if forall c :: c in w ==> IsSafe(c) {
          SafeIsOrdinary('\0');
        }
      }
    } else {
      assert w in words[1..];
      PrintedKeepsNul(words[1..], w);
    }
  }

  /** A shell reads back exactly the printed words if and only if none of them contains a NUL. */
  lemma {:induction false} ShellWordsRoundTrip(words: seq<string>)
    ensures ReadBack(ShellWords(words)) == Some(words) <==> forall w :: w in words ==> NulFree(w)
  {
    if forall w :: w in words ==> NulFree(w) {
      ReadsPrinted(words);
    } else {
      var w :| w in words && !NulFree(w);
      PrintedKeepsNul(words, w);
      NulBreaksTokens(ShellWords(words), None, false);
    }
  }

  /** Distinct word lists print differently. */
  lemma {:induction false} ShellWordsInjective(a: seq<string>, b: seq<string>)
    requires forall w :: w in a ==> NulFree(w)
    requires forall w :: w in b ==> NulFree(w)
    requires a != b
    ensures ShellWords(a) != ShellWords(b)
  {
    ReadsPrinted(a);
    ReadsPrinted(b);
  }

  // What is printed plain.

  /** The plain characters, by their ranges in ASCII. */
  predicate IsPlain(c: char) {
    c == '%' || '+' <= c <= ':' || c == '=' || '@' <= c <= 'Z' || c == '_' || 'a' <= c <= 'z'
  }

  /** A word is printed as it is exactly if it is not empty and has plain characters only; any other is quoted. */
  lemma {:induction false} PlainExactly(w: string)
    ensures ShellQuote(w) == w <==> w != [] && forall c :: c in w ==> IsPlain(c)
    ensures ShellQuote(w) != w ==> |ShellQuote(w)| >= 2 && ShellQuote(w)[0] == '\'' && ShellQuote(w)[|ShellQuote(w)| - 1] == '\''
  {
    forall c
      ensures IsSafe(c) <==> IsPlain(c)
    {
      SafeIsPlain(c);
    }
    if w != [] && !(forall c :: c in w ==> IsSafe(c)) {
      EscapedIsNotShorter(w);
    }
  }

  lemma {:induction false} SafeIsPlain(c: char)
    ensures IsSafe(c) <==> IsPlain(c)
  {
  }

  lemma {:induction false} EscapedIsNotShorter(w: string)
    ensures |Escaped(w)| >= |w|
  {
    if w != [] {
      EscapedIsNotShorter(w[1..]);
    }
  }

  /** Command lines are joined by single blanks. */
  lemma {:induction false} PrintsInOrder(a: seq<string>, b: seq<string>)
    requires a != [] && b != []
    ensures ShellWords(a + b) == ShellWords(a) + " " + ShellWords(b)
    ensures |b| == 1 ==> ShellWords(b) == ShellQuote(b[0])
  {
    assert (a + b)[0] == a[0] && (a + b)[1..] == a[1..] + b;
    if |a| > 1 {
      PrintsInOrder(a[1..], b);
    } else {
      assert a[1..] + b == b;
    }
  }
}
