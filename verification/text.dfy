/** Lines and white space, as Rust's `str` methods treat them. */
module Text {

  // The code points with the Unicode property White_Space.
  predicate IsWhitespace(c: char) {
    || '\t' <= c <= '\r'
    || c == ' '
    || c == '\U{85}' || c == '\U{A0}' || c == '\U{1680}'
    || '\U{2000}' <= c <= '\U{200A}'
    || c == '\U{2028}' || c == '\U{2029}' || c == '\U{202F}' || c == '\U{205F}' || c == '\U{3000}'
  }

  // They are these twenty-five.
  lemma WhitespaceIff(c: char)
    ensures IsWhitespace(c) <==> c in {
              '\U{09}', '\U{0A}', '\U{0B}', '\U{0C}', '\U{0D}', '\U{20}', '\U{85}', '\U{A0}', '\U{1680}',
              '\U{2000}', '\U{2001}', '\U{2002}', '\U{2003}', '\U{2004}', '\U{2005}', '\U{2006}', '\U{2007}',
              '\U{2008}', '\U{2009}', '\U{200A}', '\U{2028}', '\U{2029}', '\U{202F}', '\U{205F}', '\U{3000}'}
  {
  }

  // str::trim().is_empty()
  predicate IsBlank(s: string) {
    forall i | 0 <= i < |s| :: IsWhitespace(s[i])
  }

  // str::trim_end()
  function TrimEnd(s: string): (t: string)
    ensures t <= s && IsBlank(s[|t|..])
    ensures t == "" || !IsWhitespace(t[|t| - 1])
    decreases |s|
  {
    if s != "" && IsWhitespace(s[|s| - 1]) then TrimEnd(s[..|s| - 1]) else s
  }

  function FirstNewline(s: string): (i: nat)
    ensures i <= |s| && '\n' !in s[..i] && (i < |s| ==> s[i] == '\n')
  {
    if s == "" || s[0] == '\n' then 0 else 1 + FirstNewline(s[1..])
  }

  function StripReturn(line: string): string {
    if line != "" && line[|line| - 1] == '\r' then line[..|line| - 1] else line
  }

  // str::lines(): a line ends in a line feed, or in a carriage return and line feed;
  // the last line may lack its end.
  function Lines(s: string): seq<string>
    decreases |s|
  {
    if s == "" then
      []
    else
      var i := FirstNewline(s);
      if i == |s| then [s] else [StripReturn(s[..i])] + Lines(s[i + 1..])
  }

  predicate EndsLine(s: string) {
    s == "" || s[|s| - 1] == '\n'
  }

  lemma {:induction false} FirstNewlineOf(a: string, b: string)
    requires '\n' in a
    ensures FirstNewline(a + b) == FirstNewline(a) < |a|
  {
    if a[0] != '\n' {
      assert a == [a[0]] + a[1..] && (a + b)[1..] == a[1..] + b;
      FirstNewlineOf(a[1..], b);
    }
  }

  lemma FirstLine(line: string, rest: string)
    requires '\n' !in line
    ensures Lines(line + "\n" + rest) == [StripReturn(line)] + Lines(rest)
  {
    var s := line + "\n" + rest;
    FirstNewlineOf(line + "\n", rest);
    var i := FirstNewline(s);
    assert forall j | 0 <= j < |line| :: s[j] == line[j];
    assert s[|line|] == '\n';
    assert i == |line|;
    assert s[..i] == line && s[i + 1..] == rest;
  }

  // A line ends in a line feed, with or without a carriage return before it.
  lemma LineEnds(line: string, rest: string)
    requires '\n' !in line
    ensures Lines(line + "\r\n" + rest) == [line] + Lines(rest)
    ensures line == "" || line[|line| - 1] != '\r' ==> Lines(line + "\n" + rest) == [line] + Lines(rest)
    ensures line != "" ==> Lines(line) == [line]
  {
    assert line + "\r\n" + rest == (line + "\r") + "\n" + rest;
    assert (line + "\r")[..|line|] == line;
    FirstLine(line + "\r", rest);
    FirstLine(line, rest);
  }

  lemma SplitAt(s: string, i: nat)
    requires i < |s|
    ensures s == s[..i] + [s[i]] + s[i + 1..]
  {
  }

  lemma Associate<T>(a: seq<T>, b: seq<T>, c: seq<T>)
    ensures a + b + c == a + (b + c)
  {
  }

  lemma Regroup(a: string, b: string, c: string, d: string)
    ensures a + b + c + d == a + b + (c + d)
  {
  }

  lemma FirstLineAppend(line: string, rest: string, b: string)
    requires '\n' !in line && Lines(rest + b) == Lines(rest) + Lines(b)
    ensures Lines(line + "\n" + rest + b) == Lines(line + "\n" + rest) + Lines(b)
  {
    Regroup(line, "\n", rest, b);
    FirstLine(line, rest);
    FirstLine(line, rest + b);
    Associate([StripReturn(line)], Lines(rest), Lines(b));
  }

  // Text that ends its last line contributes its lines whatever follows.
  lemma {:induction false} LinesAppend(a: string, b: string)
    requires EndsLine(a)
    ensures Lines(a + b) == Lines(a) + Lines(b)
    decreases |a|
  {
    if a == "" {
      assert a + b == b;
    } else {
      var i := FirstNewline(a);
      SplitAt(a, i);
      LinesAppend(a[i + 1..], b);
      FirstLineAppend(a[..i], a[i + 1..], b);
    }
  }

  lemma OneLine(line: string)
    requires '\n' !in line
    ensures Lines(line + "\n") == [StripReturn(line)]
  {
    var s := line + "\n";
    FirstNewlineOf(s, "");
    var i := FirstNewline(s);
    assert forall j | 0 <= j < |line| :: s[j] == line[j];
    assert i == |line|;
    assert s[..i] == line && s[i + 1..] == "";
  }

  // The position after the last line feed.
  function LastLineStart(text: string): (n: nat)
    ensures n <= |text| && EndsLine(text[..n]) && '\n' !in text[n..]
  {
    if text == "" || text[|text| - 1] == '\n' then |text| else LastLineStart(text[..|text| - 1])
  }

  lemma {:induction false} LastLineStartOf(a: string, b: string)
    requires EndsLine(a) && '\n' !in b
    ensures LastLineStart(a + b) == |a|
  {
    if b == "" {
      assert a + b == a;
    } else {
      var n := |b| - 1;
      assert (a + b)[..|a + b| - 1] == a + b[..n] && (a + b)[|a + b| - 1] == b[n];
      LastLineStartOf(a, b[..n]);
    }
  }
}
