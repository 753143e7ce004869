/** The pane command, and how a POSIX shell reads it back. */
module Quoting {
  import opened Common
  import opened Text

  /* ---- what commands.rs writes ---- */

  // s.replace('\'', "'\\''")
  function Reopened(s: string): string {
    if s == "" then "" else (if s[0] == '\'' then "'\\''" else [s[0]]) + Reopened(s[1..])
  }

  // sh_single_quote
  function SingleQuoted(s: string): string {
    "'" + (Reopened(s) + "'")
  }

  function TrimStart(s: string): (t: string)
    ensures |t| <= |s| && t == s[|s| - |t|..] && IsBlank(s[..|s| - |t|])
    ensures t == "" || !IsWhitespace(t[0])
  {
    if s != "" && IsWhitespace(s[0]) then TrimStart(s[1..]) else s
  }

  // str::trim()
  function Trim(s: string): string {
    TrimStart(TrimEnd(s))
  }

  const LOGIN_SHELL := "exec ${SHELL:-/bin/sh} -l"

  // pane_command
  function PaneCommand(shell: Option<string>, startup: Option<string>): Option<string> {
    if shell.Some? && !IsBlank(shell.value) then shell
    else if startup.None? || Trim(startup.value) == "" then None
    else Some("exec ${SHELL:-/bin/sh} -ilc " + SingleQuoted(Trim(startup.value) + "; " + LOGIN_SHELL))
  }

  /* ---- what a shell reads: sections 2.2.1, 2.2.2 and 2.3 of the POSIX.1-2017 Shell
          Command Language, on a line that is a plain list of words ---- */

  // A character of a word, as it stands for expansion or as quoted for itself.
  datatype Part = Bare(c: char) | Literal(c: char)

  type Word = seq<Part>

  datatype Mode = Unquoted | InSingleQuotes | AfterBackslash

  // Characters that begin something other than a word: operators, the end of the line,
  // double quotes and command substitution.
  predicate IsOther(c: char) {
    c in {'\n', ';', '&', '|', '<', '>', '(', ')', '"', '`'}
  }

  function Parts(word: Option<Word>): Word {
    if word.Some? then word.value else []
  }

  function Cons(first: Option<Word>, rest: Option<seq<Word>>): Option<seq<Word>> {
    if rest.None? then None else Some((if first.Some? then [first.value] else []) + rest.value)
  }

  // The words of a line, given the word that has begun; nothing if a quote stays open or
  // the line is more than a list of words.
  function Read(s: string, word: Option<Word>, mode: Mode): Option<seq<Word>>
    decreases |s|
  {
    if s == "" then
      if mode == Unquoted then Cons(word, Some([])) else None
    else
      var c, rest := s[0], s[1..];
      match mode
      case Unquoted =>
        if c == '\'' then Read(rest, Some(Parts(word)), InSingleQuotes)
        else if c == '\\' then Read(rest, word, AfterBackslash)
        else if c == ' ' || c == '\t' then Cons(word, Read(rest, None, Unquoted))
        else if IsOther(c) || (c == '#' && word.None?) then None
        else Read(rest, Some(Parts(word) + [Bare(c)]), Unquoted)
      case InSingleQuotes =>
        if c == '\'' then Read(rest, word, Unquoted) else Read(rest, Some(Parts(word) + [Literal(c)]), InSingleQuotes)
      case AfterBackslash =>
        if c == '\n' then Read(rest, word, Unquoted) else Read(rest, Some(Parts(word) + [Literal(c)]), Unquoted)
  }

  function Words(line: string): Option<seq<Word>> {
    Read(line, None, Unquoted)
  }

  function Quoted(s: string): Word {
    seq(|s|, i requires 0 <= i < |s| => Literal(s[i]))
  }

  function Plain(s: string): Word {
    seq(|s|, i requires 0 <= i < |s| => Bare(s[i]))
  }

  /* ---- quoting is undone by reading ---- */

  lemma Step(c: char, rest: string)
    ensures ([c] + rest)[0] == c && ([c] + rest)[1..] == rest
  {
  }

  lemma OpenQuote(rest: string, word: Option<Word>)
    ensures Read("'" + rest, word, Unquoted) == Read(rest, Some(Parts(word)), InSingleQuotes)
  {
    Step('\'', rest);
  }

  lemma CloseQuote(rest: string, word: Option<Word>)
    ensures Read("'" + rest, word, InSingleQuotes) == Read(rest, word, Unquoted)
  {
    Step('\'', rest);
  }

  lemma EscapedQuote(rest: string, word: Option<Word>)
    ensures Read("\\" + ("'" + rest), word, Unquoted) == Read(rest, Some(Parts(word) + [Literal('\'')]), Unquoted)
  {
    Step('\\', "'" + rest);
    Step('\'', rest);
  }

  // The reopened quote stands for one quote.
  lemma QuoteInQuotes(rest: string, word: Word)
    ensures Read("'\\''" + rest, Some(word), InSingleQuotes) == Read(rest, Some(word + [Literal('\'')]), InSingleQuotes)
  {
    var inner := "'" + rest;
    var escaped := "\\" + ("'" + inner);
    assert "'\\''" + rest == "'" + escaped;
    CloseQuote(escaped, Some(word));
    EscapedQuote(inner, Some(word));
    OpenQuote(rest, Some(word + [Literal('\'')]));
  }

  lemma {:induction false} ReopenedReads(s: string, word: Word, after: string)
    ensures Read(Reopened(s) + ("'" + after), Some(word), InSingleQuotes)
              == Read(after, Some(word + Quoted(s)), Unquoted)
  {
    var closing := "'" + after;
    if s == "" {
      assert Reopened(s) + closing == closing && word + Quoted(s) == word;
      CloseQuote(after, Some(word));
    } else {
      var c, tail := s[0], Reopened(s[1..]) + closing;
      var longer := word + [Literal(c)];
      assert longer + Quoted(s[1..]) == word + Quoted(s);
      ReopenedReads(s[1..], longer, after);
      if c == '\'' {
        Associate("'\\''", Reopened(s[1..]), closing);
        QuoteInQuotes(tail, word);
      } else {
        Associate([c], Reopened(s[1..]), closing);
        Step(c, tail);
      }
    }
  }

  // Wherever a word may go on, a quoted string adds exactly itself to it.
  lemma QuotedReads(s: string, word: Option<Word>, after: string)
    ensures Read(SingleQuoted(s) + after, word, Unquoted) == Read(after, Some(Parts(word) + Quoted(s)), Unquoted)
  {
    Associate("'", Reopened(s) + "'", after);
    Associate(Reopened(s), "'", after);
    OpenQuote(Reopened(s) + ("'" + after), word);
    ReopenedReads(s, Parts(word), after);
  }

  // Every string, quoted, is one word that stands for itself.
  lemma QuotingRoundTrip(s: string)
    ensures Words(SingleQuoted(s)) == Some([Quoted(s)])
  {
    QuotedReads(s, None, "");
    assert SingleQuoted(s) + "" == SingleQuoted(s) && [] + Quoted(s) == Quoted(s);
    assert [Quoted(s)] + [] == [Quoted(s)];
  }

  /* ---- the pane command ---- */

  predicate IsPlain(s: string) {
    forall i | 0 <= i < |s| :: !IsOther(s[i]) && s[i] !in {'\'', '\\', ' ', '\t', '#'}
  }

  lemma {:induction false} PlainReads(s: string, word: Option<Word>, after: string)
    requires IsPlain(s) && s != ""
    ensures Read(s + after, word, Unquoted) == Read(after, Some(Parts(word) + Plain(s)), Unquoted)
  {
    var longer := Parts(word) + [Bare(s[0])];
    assert (s + after)[0] == s[0] && (s + after)[1..] == s[1..] + after;
    assert longer + Plain(s[1..]) == Parts(word) + Plain(s);
    if s[1..] == "" {
      assert s[1..] + after == after && longer + Plain(s[1..]) == longer;
    } else {
      PlainReads(s[1..], Some(longer), after);
    }
  }

  lemma PlainWord(s: string, after: string)
    requires IsPlain(s) && s != ""
    ensures Read(s + (" " + after), None, Unquoted) == Cons(Some(Plain(s)), Read(after, None, Unquoted))
  {
    PlainReads(s, None, " " + after);
    assert [] + Plain(s) == Plain(s);
    Step(' ', after);
  }

  lemma CommandSplits(argument: string)
    ensures "exec ${SHELL:-/bin/sh} -ilc " + argument
            == "exec" + (" " + ("${SHELL:-/bin/sh}" + (" " + ("-ilc" + (" " + argument)))))
  {
    var exec, shell, option := "exec", "${SHELL:-/bin/sh}", "-ilc";
    assert "exec ${SHELL:-/bin/sh} -ilc " == exec + " " + shell + " " + option + " ";
    Associate(exec + " " + shell + " " + option, " ", argument);
    Associate(exec + " " + shell + " ", option, " " + argument);
    Associate(exec + " " + shell, " ", option + (" " + argument));
    Associate(exec + " ", shell, " " + (option + (" " + argument)));
    Associate(exec, " ", shell + (" " + (option + (" " + argument))));
  }

  lemma ScriptReads(script: string)
    ensures Words("exec ${SHELL:-/bin/sh} -ilc " + SingleQuoted(script))
            == Some([Plain("exec"), Plain("${SHELL:-/bin/sh}"), Plain("-ilc"), Quoted(script)])
  {
    var argument := SingleQuoted(script);
    CommandSplits(argument);
    PlainWord("exec", "${SHELL:-/bin/sh}" + (" " + ("-ilc" + (" " + argument))));
    PlainWord("${SHELL:-/bin/sh}", "-ilc" + (" " + argument));
    PlainWord("-ilc", argument);
    QuotingRoundTrip(script);
    var exec, shell, option := Plain("exec"), Plain("${SHELL:-/bin/sh}"), Plain("-ilc");
    assert [exec] + ([shell] + ([option] + [Quoted(script)])) == [exec, shell, option, Quoted(script)];
  }

  lemma TrimmedIsEmptyIff(s: string)
    ensures Trim(s) == "" <==> IsBlank(s)
  {
    var t := TrimEnd(s);
    assert s == t + s[|t|..];
    if t == "" {
      assert s[|t|..] == s;
    } else {
      assert t[|t| - 1] == s[|t| - 1] && !IsWhitespace(t[|t| - 1]);
      assert t[..|t|] == t;
    }
  }

  lemma SplitOff(s: string, n: nat)
    requires n <= |s|
    ensures s == s[..n] + s[n..]
  {
  }

  // Trimming takes off the white space at both ends, and nothing else.
  lemma TrimIsTrimmed(s: string) returns (before: string, after: string)
    requires Trim(s) != ""
    ensures s == before + Trim(s) + after && IsBlank(before) && IsBlank(after)
    ensures !IsWhitespace(Trim(s)[0]) && !IsWhitespace(Trim(s)[|Trim(s)| - 1])
  {
    var t, middle := TrimEnd(s), Trim(s);
    before, after := t[..|t| - |middle|], s[|t|..];
    SplitOff(t, |t| - |middle|);
    SplitOff(s, |t|);
    assert middle[|middle| - 1] == t[|t| - 1];
  }

  lemma TrimmedRuns(t: string)
    ensures Words("exec ${SHELL:-/bin/sh} -ilc " + SingleQuoted(t + "; " + LOGIN_SHELL))
            == Some([Plain("exec"), Plain("${SHELL:-/bin/sh}"), Plain("-ilc"),
                     Quoted(t + "; exec ${SHELL:-/bin/sh} -l")])
  {
    assert t + "; exec ${SHELL:-/bin/sh} -l" == t + "; " + LOGIN_SHELL;
    ScriptReads(t + "; " + LOGIN_SHELL);
  }

  // A shell that is named replaces the command; a startup command is read as three plain
  // words and one argument, which is exactly the command without the white space around
  // it and the login shell that follows it.
  lemma PaneCommandReads(shell: Option<string>, startup: Option<string>)
    returns (before: string, t: string, after: string)
    ensures var command := PaneCommand(shell, startup);
            if shell.Some? && !IsBlank(shell.value) then command == shell
            else if startup.None? || IsBlank(startup.value) then command == None
            else
              && startup.value == before + t + after && IsBlank(before) && IsBlank(after)
              && t != "" && !IsWhitespace(t[0]) && !IsWhitespace(t[|t| - 1])
              && command.Some? && Words(command.value) == Some([
                Plain("exec"), Plain("${SHELL:-/bin/sh}"), Plain("-ilc"), Quoted(t + "; exec ${SHELL:-/bin/sh} -l")])
  {
    before, t, after := "", "", "";
    if startup.Some? {
      t := Trim(startup.value);
      TrimmedIsEmptyIff(startup.value);
      TrimmedRuns(t);
      if t != "" {
        before, after := TrimIsTrimmed(startup.value);
      }
    }
  }

  lemma {:induction false} ReopenedKeeps(s: string, c: char)
    requires c !in s && c !in {'\'', '\\'}
    ensures c !in Reopened(s)
  {
    if s != "" {
      ReopenedKeeps(s[1..], c);
    }
  }

  lemma JoinedLacks(a: string, b: string, c: char)
    requires c !in a && c !in b
    ensures c !in a + b
  {
  }

  lemma TrimmedLacks(s: string, c: char)
    requires c !in s
    ensures c !in Trim(s)
  {
    var t := TrimEnd(s);
    assert c !in t;
    assert Trim(s) == t[|t| - |Trim(s)|..];
  }

  lemma PrefixLacksQuotes()
    ensures '"' !in "exec ${SHELL:-/bin/sh} -ilc " && '"' !in LOGIN_SHELL
  {
  }

  lemma WrappedLacks(command: string)
    requires '"' !in command
    ensures '"' !in SingleQuoted(command + "; " + LOGIN_SHELL)
  {
    PrefixLacksQuotes();
    JoinedLacks(command, "; ", '"');
    JoinedLacks(command + "; ", LOGIN_SHELL, '"');
    ReopenedKeeps(command + "; " + LOGIN_SHELL, '"');
    JoinedLacks(Reopened(command + "; " + LOGIN_SHELL), "'", '"');
  }

  // The wrapping adds no double quote of its own.
  lemma NoDoubleQuoteAdded(shell: Option<string>, startup: Option<string>)
    requires shell.Some? ==> '"' !in shell.value
    requires startup.Some? ==> '"' !in startup.value
    ensures var command := PaneCommand(shell, startup);
            command.Some? ==> '"' !in command.value
  {
    if startup.Some? {
      TrimmedLacks(startup.value, '"');
      WrappedLacks(Trim(startup.value));
      PrefixLacksQuotes();
      JoinedLacks("exec ${SHELL:-/bin/sh} -ilc ", SingleQuoted(Trim(startup.value) + "; " + LOGIN_SHELL), '"');
    }
  }
}
