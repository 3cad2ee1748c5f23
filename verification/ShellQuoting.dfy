/**
 Quoting a path for /bin/sh (internal/pod/workerpodmanager.go:571-575), against the Escape Character
 and Single-Quotes rules of the POSIX.1-2017 Shell Command Language, sections 2.2.1 and 2.2.2.
 */
module ShellQuoting {
  import opened Basics

  function ReplaceQuotes(s: string): string {
    if s == "" then "" else (if s[0] == '\'' then "'\\''" else [s[0]]) + ReplaceQuotes(s[1..])
  }

  function ShellSingleQuote(s: string): string { "'" + ReplaceQuotes(s) + "'" }

  // ----- Token recognition -----

  /** A character of a word and whether quoting has taken its special meaning away. */
  datatype Char = Char(c: char, quoted: bool)

  type Word = seq<Char>

  predicate IsBlank(c: char) { c == ' ' || c == '\t' || c == '\n' }

  function Finished(word: Option<Word>): seq<Word> {
    match word
    case None => []
    case Some(w) => [w]
  }

  function Extended(word: Option<Word>, more: Word): Option<Word> {
    match word
    case None => Some(more)
    case Some(w) => Some(w + more)
  }

  /** The words of `input`, given the word begun so far; `None` when a quotation is not closed. */
  function Lex(input: string, inQuotes: bool, word: Option<Word>): Option<seq<Word>>
    decreases |input|
  {
    if input == "" then
      if inQuotes then None else Some(Finished(word))
    else if inQuotes then
      if input[0] == '\'' then Lex(input[1..], false, word)
      else Lex(input[1..], true, Extended(word, [Char(input[0], true)]))
    else if input[0] == '\'' then Lex(input[1..], true, Extended(word, []))
    else if input[0] == '\\' then
      if |input| == 1 then Some(Finished(Extended(word, [Char('\\', false)])))
      else if input[1] == '\n' then Lex(input[2..], false, word)
      else Lex(input[2..], false, Extended(word, [Char(input[1], true)]))
    else if IsBlank(input[0]) then
      match Lex(input[1..], false, None)
      case None => None
      case Some(words) => Some(Finished(word) + words)
    else Lex(input[1..], false, Extended(word, [Char(input[0], false)]))
  }

  /** `s` with every character quoted. */
  function Literal(s: string): (w: Word)
    ensures |w| == |s| && forall i :: 0 <= i < |s| ==> w[i] == Char(s[i], true)
  {
    if s == "" then [] else [Char(s[0], true)] + Literal(s[1..])
  }

  /** Inside the quotation, the replaced text reads as the original up to the closing quote. */
  lemma {:induction false} LexReplaced(s: string, rest: string, word: Word)
    ensures Lex(ReplaceQuotes(s) + "'" + rest, true, Some(word)) == Lex(rest, false, Some(word + Literal(s)))
    decreases |s|
  {
    var input := ReplaceQuotes(s) + "'" + rest;
    if s == "" {
      assert input[1..] == rest;
      assert word + Literal(s) == word;
    } else {
      var tail := ReplaceQuotes(s[1..]) + "'" + rest;
      var word' := word + [Char(s[0], true)];
      LexReplaced(s[1..], rest, word');
      assert word' + Literal(s[1..]) == word + Literal(s);
      if s[0] == '\'' {
        assert input == "'\\''" + tail;
        LexEscapedQuote(tail, word);
      } else {
        assert input == [s[0]] + tail;
        assert input[1..] == tail;
      }
    }
  }

  /** Close, escaped quote, open again. */
  lemma LexEscapedQuote(tail: string, word: Word)
    ensures Lex("'\\''" + tail, true, Some(word)) == Lex(tail, true, Some(word + [Char('\'', true)]))
  {
    var input := "'\\''" + tail;
    assert input[0] == '\'' && input[1..] == "\\''" + tail;
    var i1 := input[1..];
    assert i1[0] == '\\' && i1[1] == '\'' && i1[2..] == "'" + tail;
    var i2 := i1[2..];
    assert i2[0] == '\'' && i2[1..] == tail;
    var word' := word + [Char('\'', true)];
    assert word' + [] == word';
    assert Lex(input, true, Some(word)) == Lex(i1, false, Some(word));
    assert Lex(i1, false, Some(word)) == Lex(i2, false, Some(word'));
  }

  /** A quoted string continues the current word with its own characters, all quoted, whatever follows. */
  lemma QuotedIsLiteral(s: string, rest: string, word: Option<Word>)
    ensures Lex(ShellSingleQuote(s) + rest, false, word) == Lex(rest, false, Extended(word, Literal(s)))
  {
    var input := ShellSingleQuote(s) + rest;
    assert input[0] == '\'' && input[1..] == ReplaceQuotes(s) + "'" + rest;
    var begun := Extended(word, []).value;
    LexReplaced(s, rest, begun);
    assert Some(begun + Literal(s)) == Extended(word, Literal(s)) by {
      assert [] + Literal(s) == Literal(s);
      if word.Some? {
        assert word.value + [] == word.value;
      }
    }
  }

  /** For every string: one word, equal to it, with nothing left unquoted; so no two strings are quoted alike. */
  lemma QuotingRoundTrip(s: string)
    ensures Lex(ShellSingleQuote(s), false, None) == Some([Literal(s)])
    ensures forall t :: ShellSingleQuote(t) == ShellSingleQuote(s) ==> t == s
  {
    assert ShellSingleQuote(s) + "" == ShellSingleQuote(s);
    QuotedIsLiteral(s, "", None);
    forall t | ShellSingleQuote(t) == ShellSingleQuote(s)
      ensures t == s
    {
      assert ShellSingleQuote(t) + "" == ShellSingleQuote(t);
      QuotedIsLiteral(t, "", None);
      LiteralIsInjective(s, t);
    }
  }

  lemma LiteralIsInjective(s: string, t: string)
    requires Literal(s) == Literal(t)
    ensures s == t
  {
    forall i | 0 <= i < |s|
      ensures s[i] == t[i]
    {
      assert Literal(s)[i] == Literal(t)[i];
    }
  }

  /** Two quoted arguments separated by a blank stay two arguments. */
  lemma QuotedArguments(s: string, t: string)
    ensures Lex(ShellSingleQuote(s) + " " + ShellSingleQuote(t), false, None) == Some([Literal(s), Literal(t)])
  {
    var rest := " " + ShellSingleQuote(t);
    assert ShellSingleQuote(s) + " " + ShellSingleQuote(t) == ShellSingleQuote(s) + rest;
    QuotedIsLiteral(s, rest, None);
    assert rest[0] == ' ' && rest[1..] == ShellSingleQuote(t);
    QuotingRoundTrip(t);
    assert Lex(ShellSingleQuote(s) + rest, false, None) == Lex(rest, false, Some(Literal(s)));
    assert Finished(Some(Literal(s))) + [Literal(t)] == [Literal(s), Literal(t)];
  }
}
