/** Reading `git worktree list --porcelain`. */
module Porcelain {
  import opened Common
  import opened Text

  datatype Entry = Entry(path: string, head: string, branch: Option<string>, locked: bool, bare: bool, prunable: bool)

  const BRANCH_PREFIX := "refs/heads/"

  // str::split_once(' '), with nothing after a missing space
  function SplitOnce(line: string): (string, string) {
    if line == "" then ("", "")
    else if line[0] == ' ' then ("", line[1..])
    else
      var (key, value) := SplitOnce(line[1..]);
      ([line[0]] + key, value)
  }

  function ShortBranch(value: string): string {
    if BRANCH_PREFIX <= value then value[|BRANCH_PREFIX|..] else value
  }

  /* ---- the parse as a function of the lines ---- */

  datatype State = State(cur: Option<Entry>, out: seq<Entry>)

  const START := State(None, [])

  function Flush(st: State): State {
    if st.cur.Some? then State(None, st.out + [st.cur.value]) else st
  }

  function Feed(st: State, raw: string): State {
    var line := TrimEnd(raw);
    var (key, value) := SplitOnce(line);
    if line == "" then Flush(st)
    else if key == "worktree" then Flush(st).(cur := Some(Entry(value, "", None, false, false, false)))
    else if st.cur.None? then st
    else
      var e := st.cur.value;
      st.(cur := Some(
        if key == "HEAD" then e.(head := value)
        else if key == "branch" then e.(branch := Some(ShortBranch(value)))
        else if key == "locked" then e.(locked := true)
        else if key == "bare" then e.(bare := true)
        else if key == "prunable" then e.(prunable := true)
        else e))
  }

  function FeedAll(st: State, lines: seq<string>): State
    decreases |lines|
  {
    if lines == [] then st else FeedAll(Feed(st, lines[0]), lines[1..])
  }

  function Parsed(text: string): seq<Entry> {
    Flush(FeedAll(START, Lines(text))).out
  }

  // parse_worktree_porcelain
  method ParsePorcelain(text: string) returns (out: seq<Entry>)
    ensures out == Parsed(text)
  {
    out := [];
    var cur: Option<Entry> := None;
    var lines := Lines(text);
    assert lines[0..] == lines;
    var i := 0;
    while i < |lines|
      invariant 0 <= i <= |lines|
      invariant FeedAll(State(cur, out), lines[i..]) == FeedAll(START, lines)
    {
      assert lines[i..][1..] == lines[i + 1..];
      var line := TrimEnd(lines[i]);
      i := i + 1;
      if line == "" {
        if cur.Some? {
          out, cur := out + [cur.value], None;
        }
        continue;
      }
      var (key, value) := SplitOnce(line);
      if key == "worktree" {
        if cur.Some? {
          out := out + [cur.value];
        }
        cur := Some(Entry(value, "", None, false, false, false));
      } else if cur.Some? {
        var e := cur.value;
        if key == "HEAD" {
          cur := Some(e.(head := value));
        } else if key == "branch" {
          cur := Some(e.(branch := Some(ShortBranch(value))));
        } else if key == "locked" {
          cur := Some(e.(locked := true));
        } else if key == "bare" {
          cur := Some(e.(bare := true));
        } else if key == "prunable" {
          cur := Some(e.(prunable := true));
        }
      }
    }
    assert lines[i..] == [];
    if cur.Some? {
      out := out + [cur.value];
    }
  }

  /* ---- what git prints ---- */

  // An entry with the reasons that git may give for a lock and for being prunable.
  datatype Listed = Listed(entry: Entry, lockReason: string, pruneReason: string)

  predicate IsField(s: string) {
    '\n' !in s && (s == "" || !IsWhitespace(s[|s| - 1]))
  }

  // A bare entry has neither head nor branch.
  predicate Printable(l: Listed) {
    && IsField(l.entry.path) && IsField(l.entry.head) && (l.entry.branch.Some? ==> IsField(l.entry.branch.value))
    && (l.entry.bare ==> l.entry.head == "" && l.entry.branch == None)
    && '\n' !in l.lockReason && '\n' !in l.pruneReason
  }

  function Line(key: string, value: string): string {
    key + (" " + value)
  }

  function Flag(on: bool, key: string, reason: string): seq<string> {
    if !on then [] else if reason == "" then [key] else [Line(key, reason)]
  }

  function Tip(e: Entry): seq<string> {
    if e.bare then ["bare"]
    else [Line("HEAD", e.head), if e.branch.Some? then Line("branch", BRANCH_PREFIX + e.branch.value) else "detached"]
  }

  function Block(l: Listed): seq<string> {
    [Line("worktree", l.entry.path)] + Tip(l.entry)
    + Flag(l.entry.locked, "locked", l.lockReason) + Flag(l.entry.prunable, "prunable", l.pruneReason) + [""]
  }

  function Blocks(listed: seq<Listed>): seq<string> {
    if listed == [] then [] else Block(listed[0]) + Blocks(listed[1..])
  }

  function Unlines(lines: seq<string>): string {
    if lines == [] then "" else lines[0] + "\n" + Unlines(lines[1..])
  }

  function Printed(listed: seq<Listed>): string {
    Unlines(Blocks(listed))
  }

  function Entries(listed: seq<Listed>): seq<Entry> {
    if listed == [] then [] else [listed[0].entry] + Entries(listed[1..])
  }

  /* ---- lines that mean the same ---- */

  lemma {:induction false} TrimAppend(a: string, b: string)
    requires IsBlank(b)
    ensures TrimEnd(a + b) == TrimEnd(a)
    decreases |b|
  {
    if b == "" {
      assert a + b == a;
    } else {
      var n := |b| - 1;
      assert (a + b)[..|a + b| - 1] == a + b[..n] && (a + b)[|a + b| - 1] == b[n];
      TrimAppend(a, b[..n]);
    }
  }

  lemma TrimKeeps(s: string)
    requires s == "" || !IsWhitespace(s[|s| - 1])
    ensures TrimEnd(s) == s
  {
  }

  // A carriage return before a line feed changes nothing.
  lemma FeedStripped(st: State, line: string)
    ensures Feed(st, StripReturn(line)) == Feed(st, line)
  {
    var s := StripReturn(line);
    if s != line {
      assert line == s + "\r";
      TrimAppend(s, "\r");
    }
  }

  lemma {:induction false} FeedAppend(st: State, a: seq<string>, b: seq<string>)
    ensures FeedAll(st, a + b) == FeedAll(FeedAll(st, a), b)
    decreases |a|
  {
    if a == [] {
      assert a + b == b;
    } else {
      assert (a + b)[0] == a[0] && (a + b)[1..] == a[1..] + b;
      FeedAppend(Feed(st, a[0]), a[1..], b);
    }
  }

  lemma {:induction false} FeedUnlines(st: State, lines: seq<string>)
    requires forall l | l in lines :: '\n' !in l
    ensures FeedAll(st, Lines(Unlines(lines))) == FeedAll(st, lines)
    decreases |lines|
  {
    if lines != [] {
      var rest := Lines(Unlines(lines[1..]));
      FirstLine(lines[0], Unlines(lines[1..]));
      FeedStripped(st, lines[0]);
      FeedUnlines(Feed(st, lines[0]), lines[1..]);
      assert ([StripReturn(lines[0])] + rest)[1..] == rest;
    }
  }

  /* ---- white space at the end of the output ---- */

  lemma LinesOfTail(a: string, l: string)
    requires EndsLine(a) && '\n' !in l
    ensures Lines(a + l) == Lines(a) + if l == "" then [] else [l]
    ensures Lines(a + (l + "\n")) == Lines(a) + [StripReturn(l)]
  {
    LinesAppend(a, l);
    LinesAppend(a, l + "\n");
    OneLine(l);
    if l != "" {
      assert FirstNewline(l) == |l|;
    }
  }

  lemma FeedOne(st: State, lines: seq<string>, l: string)
    ensures FeedAll(st, lines + [l]) == Feed(FeedAll(st, lines), l)
  {
    FeedAppend(st, lines, [l]);
    assert [l][1..] == [];
  }

  lemma BlankFlushes(st: State, l: string)
    requires IsBlank(l)
    ensures Feed(st, l) == Flush(st)
  {
    TrimAppend("", l);
    assert "" + l == l;
  }

  // A line feed at the end of the text ends its last line, or adds an empty one.
  lemma NewlineAtEnd(a: string, l: string)
    requires EndsLine(a) && '\n' !in l
    ensures Parsed(a + (l + "\n")) == Parsed(a + l)
  {
    var st := FeedAll(START, Lines(a));
    LinesOfTail(a, l);
    FeedOne(START, Lines(a), StripReturn(l));
    if l == "" {
      SpaceFlushes(st, "");
      assert Lines(a) + [] == Lines(a);
    } else {
      FeedOne(START, Lines(a), l);
      FeedStripped(st, l);
    }
  }

  // Other white space makes its last line longer, or adds a blank one.
  lemma SpaceAtEnd(a: string, l: string, c: char)
    requires EndsLine(a) && '\n' !in l && IsWhitespace(c) && c != '\n'
    ensures Parsed(a + (l + [c])) == Parsed(a + l)
  {
    var st := FeedAll(START, Lines(a));
    LinesOfTail(a, l);
    LinesOfTail(a, l + [c]);
    FeedOne(START, Lines(a), l + [c]);
    if l == "" {
      SpaceFlushes(st, l + [c]);
      assert Lines(a) + [] == Lines(a);
    } else {
      FeedOne(START, Lines(a), l);
      FeedLonger(st, l, c);
    }
  }

  lemma SpaceFlushes(st: State, l: string)
    requires IsBlank(l)
    ensures Flush(Feed(st, l)) == Flush(st)
  {
    BlankFlushes(st, l);
  }

  lemma FeedLonger(st: State, l: string, c: char)
    requires IsWhitespace(c)
    ensures Feed(st, l + [c]) == Feed(st, l)
  {
    TrimAppend(l, [c]);
  }

  lemma WhitespaceAtEnd(text: string, c: char)
    requires IsWhitespace(c)
    ensures Parsed(text + [c]) == Parsed(text)
  {
    var n := LastLineStart(text);
    var a, l := text[..n], text[n..];
    assert text == a + l && text + [c] == a + (l + [c]);
    if c == '\n' {
      NewlineAtEnd(a, l);
    } else {
      SpaceAtEnd(a, l, c);
    }
  }

  // So trimming the output, as the caller does, changes nothing.
  lemma {:induction false} TrimmedParsesTheSame(text: string)
    ensures Parsed(TrimEnd(text)) == Parsed(text)
    decreases |text|
  {
    if text != "" && IsWhitespace(text[|text| - 1]) {
      var shorter, c := text[..|text| - 1], text[|text| - 1];
      assert text == shorter + [c];
      WhitespaceAtEnd(shorter, c);
      TrimmedParsesTheSame(shorter);
    }
  }

  /* ---- parsing undoes printing ---- */

  lemma {:induction false} SplitKey(key: string, value: string)
    requires ' ' !in key
    ensures SplitOnce(key + (" " + value)) == (key, value) && SplitOnce(key) == (key, "")
  {
    if key == "" {
      assert key + (" " + value) == " " + value && (" " + value)[1..] == value;
    } else {
      assert (key + (" " + value))[1..] == key[1..] + (" " + value);
      SplitKey(key[1..], value);
      assert [key[0]] + key[1..] == key;
    }
  }

  predicate IsKey(key: string) {
    key != "" && ' ' !in key && !IsWhitespace(key[|key| - 1])
  }

  // A line of a key and a field reads back as that key and that field.
  lemma KeyAndField(key: string, value: string)
    requires IsKey(key) && (value == "" || !IsWhitespace(value[|value| - 1]))
    ensures var line := TrimEnd(Line(key, value)); line != "" && SplitOnce(line) == (key, value)
  {
    SplitKey(key, value);
    if value == "" {
      assert " " + value == " ";
      TrimAppend(key, " ");
      TrimKeeps(key);
    } else {
      TrimKeeps(Line(key, value));
    }
  }

  lemma KeyAlone(key: string)
    requires IsKey(key)
    ensures TrimEnd(key) == key && SplitOnce(key) == (key, "")
  {
    TrimKeeps(key);
    SplitKey(key, "");
  }

  // A line of a key and a reason reads back as that key.
  lemma KeyAndReason(key: string, reason: string)
    requires IsKey(key)
    ensures var line := TrimEnd(Line(key, reason)); line != "" && SplitOnce(line).0 == key
  {
    var t := TrimEnd(reason);
    LineOfParts(key, t, reason[|t|..]);
    assert reason == t + reason[|t|..];
    TrimAppend(Line(key, t), reason[|t|..]);
    KeyAndField(key, t);
  }

  lemma LineOfParts(key: string, a: string, b: string)
    ensures Line(key, a + b) == Line(key, a) + b
  {
  }

  lemma FeedSingle(st: State, line: string)
    ensures FeedAll(st, [line]) == Feed(st, line)
  {
    FeedOne(st, [], line);
    assert [] + [line] == [line];
  }

  function Flagged(e: Entry, on: bool, key: string): Entry {
    if !on then e else if key == "locked" then e.(locked := true) else e.(prunable := true)
  }

  lemma FlagReads(cur: Entry, out: seq<Entry>, on: bool, key: string, reason: string)
    requires key == "locked" || key == "prunable"
    ensures FeedAll(State(Some(cur), out), Flag(on, key, reason)) == State(Some(Flagged(cur, on, key)), out)
  {
    if on {
      var line := if reason == "" then key else Line(key, reason);
      assert IsKey(key);
      KeyAlone(key);
      KeyAndReason(key, reason);
      FeedSingle(State(Some(cur), out), line);
      KeyDecides(State(Some(cur), out), line, key);
    }
  }

  lemma KeyDecides(st: State, line: string, key: string)
    requires st.cur.Some? && TrimEnd(line) != "" && SplitOnce(TrimEnd(line)).0 == key && key in {"locked", "prunable"}
    ensures Feed(st, line) == st.(cur := Some(Flagged(st.cur.value, true, key)))
  {
  }

  // No other line matters, and none does before the first path.
  lemma OtherLinesAreIgnored(st: State, key: string, value: string)
    requires IsKey(key) && IsField(value)
    requires key != "worktree"
    requires key !in {"HEAD", "branch", "locked", "bare", "prunable"} || st.cur == None
    ensures Feed(st, Line(key, value)) == st
  {
    KeyAndField(key, value);
    Ignored(st, Line(key, value), key);
  }

  lemma Ignored(st: State, raw: string, key: string)
    requires TrimEnd(raw) != "" && SplitOnce(TrimEnd(raw)).0 == key
    requires key != "worktree"
    requires key !in {"HEAD", "branch", "locked", "bare", "prunable"} || st.cur == None
    ensures Feed(st, raw) == st
  {
  }

  lemma HeadReads(e: Entry, out: seq<Entry>, head: string)
    requires IsField(head)
    ensures Feed(State(Some(e), out), Line("HEAD", head)) == State(Some(e.(head := head)), out)
  {
    KeyAndField("HEAD", head);
  }

  lemma BranchReads(e: Entry, out: seq<Entry>, branch: string)
    requires IsField(branch)
    ensures Feed(State(Some(e), out), Line("branch", BRANCH_PREFIX + branch))
              == State(Some(e.(branch := Some(branch))), out)
  {
    var value := BRANCH_PREFIX + branch;
    assert value[|value| - 1] == if branch == "" then '/' else branch[|branch| - 1];
    KeyAndField("branch", value);
    assert ShortBranch(value) == branch;
  }

  lemma BareReads(e: Entry, out: seq<Entry>)
    ensures Feed(State(Some(e), out), "bare") == State(Some(e.(bare := true)), out)
  {
    KeyAlone("bare");
  }

  lemma DetachedReads(e: Entry, out: seq<Entry>)
    ensures Feed(State(Some(e), out), "detached") == State(Some(e), out)
  {
    KeyAlone("detached");
  }

  lemma TipReads(e: Entry, out: seq<Entry>)
    requires Printable(Listed(e, "", ""))
    ensures FeedAll(State(Some(Entry(e.path, "", None, false, false, false)), out), Tip(e))
            == State(Some(Entry(e.path, e.head, e.branch, false, e.bare, false)), out)
  {
    var a := Entry(e.path, "", None, false, false, false);
    var b := a.(head := e.head);
    BareReads(a, out);
    DetachedReads(b, out);
    if e.bare {
      FeedSingle(State(Some(a), out), "bare");
    } else {
      var head, branch := Tip(e)[0], Tip(e)[1];
      HeadReads(a, out, e.head);
      if e.branch.Some? {
        BranchReads(b, out, e.branch.value);
      }
      assert Tip(e) == [head] + [branch];
      FeedSingle(State(Some(a), out), head);
      FeedOne(State(Some(a), out), [head], branch);
    }
  }

  lemma FeedInTurn(st: State, a: seq<string>, b: seq<string>, c: seq<string>, d: seq<string>, l: string)
    ensures FeedAll(st, a + b + c + d + [l]) == Feed(FeedAll(FeedAll(FeedAll(FeedAll(st, a), b), c), d), l)
  {
    FeedAppend(st, a, b);
    FeedAppend(st, a + b, c);
    FeedAppend(st, a + b + c, d);
    FeedOne(st, a + b + c + d, l);
  }

  lemma PathReads(path: string, out: seq<Entry>)
    requires IsField(path)
    ensures Feed(State(None, out), Line("worktree", path))
              == State(Some(Entry(path, "", None, false, false, false)), out)
  {
    KeyAndField("worktree", path);
  }

  lemma BlockReads(l: Listed, out: seq<Entry>)
    requires Printable(l)
    ensures FeedAll(State(None, out), Block(l)) == State(None, out + [l.entry])
  {
    var e := l.entry;
    var b := Entry(e.path, e.head, e.branch, false, e.bare, false);
    var c := Flagged(b, e.locked, "locked");
    PathReads(e.path, out);
    FeedSingle(State(None, out), Line("worktree", e.path));
    TipReads(e, out);
    FlagReads(b, out, e.locked, "locked", l.lockReason);
    FlagReads(c, out, e.prunable, "prunable", l.pruneReason);
    assert Flagged(c, e.prunable, "prunable") == e;
    BlankFlushes(State(Some(e), out), "");
    FeedInTurn(State(None, out), [Line("worktree", e.path)], Tip(e), Flag(e.locked, "locked", l.lockReason),
               Flag(e.prunable, "prunable", l.pruneReason), "");
  }

  lemma {:induction false} BlocksRead(listed: seq<Listed>, out: seq<Entry>)
    requires forall l | l in listed :: Printable(l)
    ensures FeedAll(State(None, out), Blocks(listed)) == State(None, out + Entries(listed))
    decreases |listed|
  {
    if listed != [] {
      BlockReads(listed[0], out);
      BlocksRead(listed[1..], out + [listed[0].entry]);
      FeedAppend(State(None, out), Block(listed[0]), Blocks(listed[1..]));
      Associate(out, [listed[0].entry], Entries(listed[1..]));
    } else {
      assert out + [] == out;
    }
  }

  lemma LineHasNoNewline(key: string, value: string)
    requires '\n' !in key && '\n' !in value
    ensures '\n' !in Line(key, value)
  {
    assert '\n' !in " " + value;
  }

  lemma FlagHasNoNewline(on: bool, key: string, reason: string)
    requires '\n' !in key && '\n' !in reason
    ensures forall line | line in Flag(on, key, reason) :: '\n' !in line
  {
    LineHasNoNewline(key, reason);
  }

  lemma TipHasNoNewline(e: Entry)
    requires IsField(e.head) && (e.branch.Some? ==> IsField(e.branch.value))
    ensures forall line | line in Tip(e) :: '\n' !in line
  {
    LineHasNoNewline("HEAD", e.head);
    if e.branch.Some? {
      assert '\n' !in BRANCH_PREFIX + e.branch.value;
      LineHasNoNewline("branch", BRANCH_PREFIX + e.branch.value);
    }
  }

  lemma BlockHasNoNewline(l: Listed)
    requires Printable(l)
    ensures forall line | line in Block(l) :: '\n' !in line
  {
    LineHasNoNewline("worktree", l.entry.path);
    TipHasNoNewline(l.entry);
    FlagHasNoNewline(l.entry.locked, "locked", l.lockReason);
    FlagHasNoNewline(l.entry.prunable, "prunable", l.pruneReason);
  }

  lemma {:induction false} BlocksHaveNoNewline(listed: seq<Listed>)
    requires forall l | l in listed :: Printable(l)
    ensures forall line | line in Blocks(listed) :: '\n' !in line
  {
    if listed != [] {
      BlockHasNoNewline(listed[0]);
      BlocksHaveNoNewline(listed[1..]);
    }
  }

  // Parsing undoes printing, whether or not the output has been trimmed.
  lemma ParsingUndoesPrinting(listed: seq<Listed>)
    requires forall l | l in listed :: Printable(l)
    ensures Parsed(Printed(listed)) == Entries(listed)
    ensures Parsed(TrimEnd(Printed(listed))) == Entries(listed)
  {
    BlocksHaveNoNewline(listed);
    FeedUnlines(START, Blocks(listed));
    BlocksRead(listed, []);
    assert [] + Entries(listed) == Entries(listed);
    TrimmedParsesTheSame(Printed(listed));
  }
}
