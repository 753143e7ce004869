/** `extract_object`: cut a JSON object out of a log line by matching its braces. */
module Scanner {
  import opened Common
  import Text

  /* ---- the texts in which braces and strings balance ---- */

  datatype Unit = Ordinary(c: char) | Escaped(c: char)

  datatype Doc = End | Plain(c: char, rest: Doc) | Quoted(units: seq<Unit>, rest: Doc) | Braced(inner: Doc, rest: Doc)

  predicate ValidUnits(us: seq<Unit>) {
    forall u | u in us :: u.Ordinary? ==> u.c !in {'"', '\\'}
  }

  predicate Balanced(d: Doc) {
    match d
    case End => true
    case Plain(c, rest) => c !in {'"', '{', '}'} && Balanced(rest)
    case Quoted(us, rest) => ValidUnits(us) && Balanced(rest)
    case Braced(inner, rest) => Balanced(inner) && Balanced(rest)
  }

  function ShowUnits(us: seq<Unit>): string {
    if us == [] then ""
    else (match us[0] case Ordinary(c) => [c] case Escaped(c) => ['\\', c]) + ShowUnits(us[1..])
  }

  function Show(d: Doc): string {
    match d
    case End => ""
    case Plain(c, rest) => [c] + Show(rest)
    case Quoted(us, rest) => "\"" + (ShowUnits(us) + ("\"" + Show(rest)))
    case Braced(inner, rest) => "{" + (Show(inner) + ("}" + Show(rest)))
  }

  function Object(inner: Doc): string {
    "{" + (Show(inner) + "}")
  }

  /* ---- the scan as a function of the text ---- */

  datatype Mode = Text | InString | Escape

  function Plus(n: nat, end: Option<nat>): Option<nat> {
    if end.Some? then Some(n + end.value) else None
  }

  // How far the scan goes from `depth` open braces until all are closed.
  function Ends(s: string, depth: int, mode: Mode): (r: Option<nat>)
    ensures r.Some? ==> 0 < r.value <= |s|
  {
    if s == "" then None
    else if mode == Text && s[0] == '}' && depth == 1 then Some(1)
    else Plus(1, Ends(s[1..], DepthAfter(s[0], depth, mode), ModeAfter(s[0], mode)))
  }

  function DepthAfter(c: char, depth: int, mode: Mode): int {
    if mode != Text then depth else if c == '{' then depth + 1 else if c == '}' then depth - 1 else depth
  }

  function ModeAfter(c: char, mode: Mode): Mode {
    match mode
    case Text => if c == '"' then InString else Text
    case InString => if c == '\\' then Escape else if c == '"' then Text else InString
    case Escape => InString
  }

  /* ---- a balanced text passes ---- */

  lemma Ahead(c: char, s: string, depth: int, mode: Mode)
    requires !(mode == Text && c == '}' && depth == 1)
    ensures Ends([c] + s, depth, mode) == Plus(1, Ends(s, DepthAfter(c, depth, mode), ModeAfter(c, mode)))
  {
    assert ([c] + s)[1..] == s;
  }

  lemma {:induction false} UnitsPass(us: seq<Unit>, after: string, depth: int)
    requires ValidUnits(us)
    ensures Ends(ShowUnits(us) + after, depth, InString) == Plus(|ShowUnits(us)|, Ends(after, depth, InString))
  {
    if us == [] {
      assert ShowUnits(us) + after == after;
    } else {
      var tail := ShowUnits(us[1..]);
      UnitsPass(us[1..], after, depth);
      match us[0]
      case Ordinary(c) =>
        Text.Associate([c], tail, after);
        Ahead(c, tail + after, depth, InString);
      case Escaped(c) =>
        Text.Associate(['\\', c], tail, after);
        assert ['\\', c] + (tail + after) == ['\\'] + ([c] + (tail + after));
        Ahead('\\', [c] + (tail + after), depth, InString);
        Ahead(c, tail + after, depth, Escape);
    }
  }

  // A text passes in front of another if the scan is where it was after it.
  predicate Passes(text: string, after: string, depth: int) {
    Ends(text + after, depth, Text) == Plus(|text|, Ends(after, depth, Text))
  }

  lemma {:induction false} BalancedPasses(d: Doc, after: string, depth: int)
    requires Balanced(d) && depth >= 1
    ensures Passes(Show(d), after, depth)
  {
    match d
    case End =>
      assert Show(d) + after == after;
    case Plain(c, rest) =>
      BalancedPasses(rest, after, depth);
      PlainPasses(c, rest, after, depth);
    case Quoted(us, rest) =>
      BalancedPasses(rest, after, depth);
      QuotedPassesBefore(us, rest, after, depth);
    case Braced(inner, rest) =>
      BalancedPasses(rest, after, depth);
      BalancedPasses(inner, "}" + (Show(rest) + after), depth + 1);
      BracedPassesBefore(inner, rest, after, depth);
  }

  lemma PlainPasses(c: char, rest: Doc, after: string, depth: int)
    requires Balanced(Plain(c, rest)) && depth >= 1 && Passes(Show(rest), after, depth)
    ensures Passes(Show(Plain(c, rest)), after, depth)
  {
    Text.Associate([c], Show(rest), after);
    Ahead(c, Show(rest) + after, depth, Text);
  }

  lemma QuotedPassesBefore(us: seq<Unit>, rest: Doc, after: string, depth: int)
    requires ValidUnits(us) && Passes(Show(rest), after, depth)
    ensures Passes(Show(Quoted(us, rest)), after, depth)
  {
    QuotedPasses(us, Show(rest) + after, depth);
    QuotedSplits(ShowUnits(us), Show(rest), after);
    assert |Show(Quoted(us, rest))| == |ShowUnits(us)| + 2 + |Show(rest)|;
  }

  lemma BracedPassesBefore(inner: Doc, rest: Doc, after: string, depth: int)
    requires depth >= 1 && Passes(Show(rest), after, depth)
    requires Passes(Show(inner), "}" + (Show(rest) + after), depth + 1)
    ensures Passes(Show(Braced(inner, rest)), after, depth)
  {
    BracesPass(Show(inner), Show(rest), after, depth);
  }

  lemma BracesPass(inner: string, rest: string, after: string, depth: int)
    requires depth >= 1 && Passes(rest, after, depth) && Passes(inner, "}" + (rest + after), depth + 1)
    ensures Passes("{" + (inner + ("}" + rest)), after, depth)
  {
    var text := "{" + (inner + ("}" + rest));
    BracedPasses(inner, rest + after, depth);
    BracedSplits(inner, rest, after);
    assert |text| == |inner| + 2 + |rest|;
  }

  lemma QuotedPasses(us: seq<Unit>, after: string, depth: int)
    requires ValidUnits(us)
    ensures Ends("\"" + (ShowUnits(us) + ("\"" + after)), depth, Text)
              == Plus(|ShowUnits(us)| + 2, Ends(after, depth, Text))
  {
    var closing := "\"" + after;
    UnitsPass(us, closing, depth);
    Ahead('"', ShowUnits(us) + closing, depth, Text);
    Ahead('"', after, depth, InString);
  }

  lemma BracedPasses(inner: string, after: string, depth: int)
    requires depth >= 1
    requires Ends(inner + ("}" + after), depth + 1, Text) == Plus(|inner|, Ends("}" + after, depth + 1, Text))
    ensures Ends("{" + (inner + ("}" + after)), depth, Text) == Plus(|inner| + 2, Ends(after, depth, Text))
  {
    Ahead('{', inner + ("}" + after), depth, Text);
    Ahead('}', after, depth + 1, Text);
  }

  lemma QuotedSplits(a: string, b: string, c: string)
    ensures "\"" + (a + ("\"" + b)) + c == "\"" + (a + ("\"" + (b + c)))
  {
  }

  lemma BracedSplits(a: string, b: string, c: string)
    ensures "{" + (a + ("}" + b)) + c == "{" + (a + ("}" + (b + c)))
  {
  }

  lemma ObjectPasses(inner: Doc, after: string)
    requires Balanced(inner)
    ensures Ends(Object(inner) + after, 0, Text) == Some(|Object(inner)|)
  {
    var closing := "}" + after;
    BalancedPasses(inner, closing, 1);
    BracedSplits(Show(inner), "", after);
    assert "}" + "" == "}" && "" + after == after;
    assert Ends(closing, 1, Text) == Some(1);
    Ahead('{', Show(inner) + closing, 0, Text);
  }

  /* ---- what passes is balanced ---- */

  // The texts that close one open brace after another.
  function Closing(levels: seq<Doc>): string {
    if levels == [] then "" else Show(levels[0]) + ("}" + Closing(levels[1..]))
  }

  // Put a document before the text of the innermost level.
  lemma ClosingOf(first: Doc, d: Doc, rest: seq<Doc>, head: string)
    requires Show(first) == head + Show(d)
    ensures Closing([first] + rest) == head + Closing([d] + rest)
  {
    assert ([first] + rest)[1..] == rest && ([d] + rest)[1..] == rest;
    Text.Associate(head, Show(d), "}" + Closing(rest));
  }

  lemma FirstThenRest(s: string, n: nat)
    requires 0 < n <= |s|
    ensures s[..n] == [s[0]] + s[1..][..n - 1]
  {
  }

  lemma {:induction false} EndsAreClosings(s: string, depth: nat) returns (levels: seq<Doc>)
    requires depth >= 1 && Ends(s, depth, Text).Some?
    ensures |levels| == depth && (forall d | d in levels :: Balanced(d))
    ensures s[..Ends(s, depth, Text).value] == Closing(levels)
    decreases |s|
  {
    var end := Ends(s, depth, Text).value;
    FirstThenRest(s, end);
    if s[0] == '}' {
      if depth == 1 {
        levels := [End];
      } else {
        var rest := EndsAreClosings(s[1..], depth - 1);
        levels := [End] + rest;
      }
      assert levels[1..] == if depth == 1 then [] else levels[1..];
    } else if s[0] == '{' {
      var inner := EndsAreClosings(s[1..], depth + 1);
      var first := Braced(inner[0], inner[1]);
      levels := [first] + inner[2..];
      OpenBrace(inner[0], inner[1], inner[2..]);
      assert inner == [inner[0]] + ([inner[1]] + inner[2..]);
    } else if s[0] == '"' {
      var units, inner := StringsEnd(s[1..], depth);
      var first := Quoted(units, inner[0]);
      levels := [first] + inner[1..];
      assert inner == [inner[0]] + inner[1..];
      OpenQuote(units, inner[0], inner[1..]);
    } else {
      var inner := EndsAreClosings(s[1..], depth);
      var first := Plain(s[0], inner[0]);
      levels := [first] + inner[1..];
      assert inner == [inner[0]] + inner[1..];
      ClosingOf(first, inner[0], inner[1..], [s[0]]);
    }
  }

  lemma OpenBrace(inner: Doc, d: Doc, rest: seq<Doc>)
    ensures Closing([Braced(inner, d)] + rest) == "{" + Closing([inner] + ([d] + rest))
  {
    var text := Show(inner) + "}";
    Text.Associate("{", text, Show(d));
    Text.Associate(Show(inner), "}", Show(d));
    ClosingOf(Braced(inner, d), d, rest, "{" + text);
    assert ([inner] + ([d] + rest))[1..] == [d] + rest;
    Text.Associate(Show(inner), "}", Closing([d] + rest));
    Text.Associate("{", text, Closing([d] + rest));
  }

  lemma OpenQuote(units: seq<Unit>, d: Doc, rest: seq<Doc>)
    ensures Closing([Quoted(units, d)] + rest) == "\"" + (ShowUnits(units) + ("\"" + Closing([d] + rest)))
  {
    var text := ShowUnits(units) + "\"";
    Text.Associate("\"", text, Show(d));
    Text.Associate(ShowUnits(units), "\"", Show(d));
    ClosingOf(Quoted(units, d), d, rest, "\"" + text);
    Text.Associate("\"", text, Closing([d] + rest));
    Text.Associate(ShowUnits(units), "\"", Closing([d] + rest));
  }

  lemma {:induction false} StringsEnd(s: string, depth: nat) returns (units: seq<Unit>, levels: seq<Doc>)
    requires depth >= 1 && Ends(s, depth, InString).Some?
    ensures ValidUnits(units) && |levels| == depth && (forall d | d in levels :: Balanced(d))
    ensures s[..Ends(s, depth, InString).value] == ShowUnits(units) + ("\"" + Closing(levels))
    decreases |s|
  {
    var end := Ends(s, depth, InString).value;
    FirstThenRest(s, end);
    if s[0] == '"' {
      levels := EndsAreClosings(s[1..], depth);
      units := [];
    } else {
      var unit, at := Ordinary(s[0]), 1;
      if s[0] == '\\' {
        unit, at := Escaped(s[1]), 2;
        FirstThenRest(s[1..], end - 1);
        assert s[1..][1..] == s[2..];
      }
      units, levels := StringsEnd(s[at..], depth);
      var tail := units;
      units := [unit] + tail;
      assert units[1..] == tail;
      var shown := if unit.Ordinary? then [unit.c] else ['\\', unit.c];
      Text.Associate(shown, ShowUnits(tail), "\"" + Closing(levels));
    }
  }

  lemma EndsAreObjects(s: string) returns (inner: Doc)
    requires s != "" && s[0] == '{' && Ends(s, 0, Text).Some?
    ensures Balanced(inner) && s[..Ends(s, 0, Text).value] == Object(inner)
  {
    var levels := EndsAreClosings(s[1..], 1);
    inner := levels[0];
    assert levels == [inner] && levels[1..] == [];
    FirstThenRest(s, Ends(s, 0, Text).value);
  }

  /* ---- the needle ---- */

  predicate OccursAt(s: string, needle: string, at: nat) {
    at + |needle| <= |s| && s[at..at + |needle|] == needle
  }

  predicate FirstAt(s: string, needle: string, at: nat) {
    OccursAt(s, needle, at) && forall k | 0 <= k < at :: !OccursAt(s, needle, k)
  }

  // str::find
  method Find(s: string, needle: string) returns (at: Option<nat>)
    ensures at.Some? ==> FirstAt(s, needle, at.value)
    ensures at.None? ==> forall k | 0 <= k <= |s| :: !OccursAt(s, needle, k)
  {
    var k := 0;
    while k <= |s|
      invariant 0 <= k <= |s| + 1
      invariant forall j | 0 <= j < k :: !OccursAt(s, needle, j)
    {
      if OccursAt(s, needle, k) {
        return Some(k);
      }
      k := k + 1;
    }
    at := None;
  }

  function Spaces(n: nat): string {
    seq(n, _ => ' ')
  }

  function Needle(key: string): string {
    "\"" + key + "\":"
  }

  // Spaces, then a balanced object, then anything.
  ghost predicate Opens(text: string, spaces: nat, inner: Doc, after: string) {
    Balanced(inner) && text == Spaces(spaces) + (Object(inner) + after)
  }

  // The text is cut around the first place where the needle stands.
  ghost predicate CutAtFirst(s: string, before: string, needle: string, rest: string) {
    s == before + needle + rest && forall b, r | s == b + needle + r :: |before| <= |b|
  }

  lemma OccursIff(s: string, needle: string, at: nat)
    ensures OccursAt(s, needle, at) <==> exists b, r :: s == b + needle + r && |b| == at
  {
    if OccursAt(s, needle, at) {
      assert s == s[..at] + needle + s[at + |needle|..];
    }
    forall b, r | s == b + needle + r && |b| == at
      ensures OccursAt(s, needle, at)
    {
      assert s[at..at + |needle|] == needle;
    }
  }

  lemma FirstIsCut(s: string, needle: string, at: nat, before: string, rest: string)
    requires FirstAt(s, needle, at)
    ensures CutAtFirst(s, before, needle, rest) <==> before == s[..at] && rest == s[at + |needle|..]
  {
    assert s == s[..at] + needle + s[at + |needle|..];
    forall b, r | s == b + needle + r
      ensures at <= |b|
    {
      OccursIff(s, needle, |b|);
    }
    if s == before + needle + rest && |before| == at {
      assert s[..at] == before && s[at + |needle|..] == rest;
    }
  }

  // After the first `"key":` come spaces and a balanced object.
  ghost predicate Follows(body: string, key: string, spaces: nat, inner: Doc, after: string) {
    && Balanced(inner)
    && exists before, rest ::
         CutAtFirst(body, before, "\"" + key + "\":", rest) && rest == Spaces(spaces) + (Object(inner) + after)
  }

  lemma FollowsIff(body: string, key: string, at: nat, spaces: nat, inner: Doc, after: string)
    requires FirstAt(body, Needle(key), at)
    ensures Follows(body, key, spaces, inner, after) <==> Opens(body[at + |Needle(key)|..], spaces, inner, after)
  {
    var rest := body[at + |Needle(key)|..];
    FirstIsCut(body, Needle(key), at, body[..at], rest);
    assert Needle(key) == "\"" + key + "\":";
    assert CutAtFirst(body, body[..at], Needle(key), rest);
    if Follows(body, key, spaces, inner, after) {
      var before, tail :|
        CutAtFirst(body, before, "\"" + key + "\":", tail) && tail == Spaces(spaces) + (Object(inner) + after);
      FirstIsCut(body, Needle(key), at, before, tail);
    }
  }

  lemma NothingFollows(body: string, key: string, spaces: nat, inner: Doc, after: string)
    requires forall k | 0 <= k <= |body| :: !OccursAt(body, Needle(key), k)
    ensures !Follows(body, key, spaces, inner, after)
  {
    if Follows(body, key, spaces, inner, after) {
      assert Needle(key) == "\"" + key + "\":";
      var before, rest :| CutAtFirst(body, before, "\"" + key + "\":", rest)
                          && rest == Spaces(spaces) + (Object(inner) + after);
      OccursIff(body, Needle(key), |before|);
      assert false;
    }
  }

  // The scan is exact: it returns the balanced object that follows the first key, and
  // returns nothing only if none does.
  method ExtractObject(body: string, key: string) returns (r: Option<string>)
    ensures forall spaces: nat, inner, after :: Follows(body, key, spaces, inner, after) ==> r == Some(Object(inner))
    ensures r.Some? ==>
              exists spaces: nat, inner, after :: Follows(body, key, spaces, inner, after) && r.value == Object(inner)
  {
    var at := Find(body, Needle(key));
    if at.None? {
      forall spaces: nat, inner, after
        ensures !Follows(body, key, spaces, inner, after)
      {
        NothingFollows(body, key, spaces, inner, after);
      }
      return None;
    }
    r := ScanObject(body, at.value + |Needle(key)|);
    forall spaces: nat, inner, after
      ensures Follows(body, key, spaces, inner, after)
              <==> Opens(body[at.value + |Needle(key)|..], spaces, inner, after)
    {
      FollowsIff(body, key, at.value, spaces, inner, after);
    }
    if r.Some? {
      ghost var spaces: nat, inner, after :|
        Opens(body[at.value + |Needle(key)|..], spaces, inner, after) && r.value == Object(inner);
      assert Follows(body, key, spaces, inner, after);
    }
  }

  lemma SpacesThenBrace(n: nat, text: string, m: nat, inner: Doc, after: string)
    requires text != "" && text[0] == '{' && Opens(Spaces(n) + text, m, inner, after)
    ensures n == m && text == Object(inner) + after
  {
    var s := Spaces(n) + text;
    assert s[n] == '{' && s[m] == '{';
    assert forall k | 0 <= k < n :: s[k] == Spaces(n)[k];
    assert forall k | 0 <= k < m :: s[k] == Spaces(m)[k];
    assert s[n..] == text && s[n..] == Object(inner) + after;
  }

  // An object opens after these spaces exactly if the scan from its brace ends.
  lemma OpensIff(n: nat, text: string)
    requires text != "" && text[0] == '{'
    ensures var end := Ends(text, 0, Text);
            && (forall m: nat, inner, after | Opens(Spaces(n) + text, m, inner, after) ::
                  end.Some? && text[..end.value] == Object(inner))
            && (end.Some? ==>
                  exists m: nat, inner, after ::
                    Opens(Spaces(n) + text, m, inner, after) && text[..end.value] == Object(inner))
  {
    var end := Ends(text, 0, Text);
    forall m: nat, inner, after | Opens(Spaces(n) + text, m, inner, after)
      ensures end.Some? && text[..end.value] == Object(inner)
    {
      SpacesThenBrace(n, text, m, inner, after);
      ObjectPasses(inner, after);
      assert (Object(inner) + after)[..|Object(inner)|] == Object(inner);
    }
    if end.Some? {
      var inner := EndsAreObjects(text);
      assert text == text[..end.value] + text[end.value..];
      assert Opens(Spaces(n) + text, n, inner, text[end.value..]);
    }
  }

  lemma NoObject(text: string, i: nat)
    requires i <= |text| && text[..i] == Spaces(i) && (i < |text| ==> text[i] !in {' ', '{'})
    ensures forall m: nat, inner, after :: !Opens(text, m, inner, after)
  {
    forall m: nat, inner, after
      ensures !Opens(text, m, inner, after)
    {
      if Opens(text, m, inner, after) {
        assert text[m] == '{';
        assert forall k | 0 <= k < m :: text[k] == Spaces(m)[k];
        assert forall k | 0 <= k < i :: text[k] == text[..i][k];
        assert false;
      }
    }
  }

  // The loops of extract_object, from the end of the needle.
  method ScanObject(body: string, start: nat) returns (r: Option<string>)
    requires start <= |body|
    ensures forall spaces: nat, inner, after :: Opens(body[start..], spaces, inner, after) ==> r == Some(Object(inner))
    ensures r.Some? ==>
              exists spaces: nat, inner, after :: Opens(body[start..], spaces, inner, after) && r.value == Object(inner)
  {
    ghost var text := body[start..];
    var i := start;
    while i < |body| && body[i] != '{'
      invariant start <= i <= |body| && text[..i - start] == Spaces(i - start)
    {
      if body[i] != ' ' {
        NoObject(text, i - start);
        return None;
      }
      i := i + 1;
    }
    if i >= |body| {
      NoObject(text, i - start);
      return None;
    }
    OpensIff(i - start, body[i..]);
    assert text == Spaces(i - start) + body[i..];
    r := CloseObject(body, i);
  }

  // From an opening brace to the one that closes it.
  method CloseObject(body: string, start: nat) returns (r: Option<string>)
    requires start < |body| && body[start] == '{'
    ensures var end := Ends(body[start..], 0, Text);
            r == if end.Some? then Some(body[start..][..end.value]) else None
  {
    var i, depth, inString, escape := start, 0, false, false;
    while i < |body|
      invariant start <= i <= |body|
      invariant Ends(body[start..], 0, Text)
                == Plus(i - start, Ends(body[i..], depth, if !inString then Text else if escape then Escape
                                        else InString))
      invariant !(escape && !inString) && (i == start ==> depth == 0 && !inString) && (i > start ==> depth >= 1)
    {
      var c := body[i];
      assert body[i..][1..] == body[i + 1..];
      if inString {
        if escape {
          escape := false;
        } else if c == '\\' {
          escape := true;
        } else if c == '"' {
          inString := false;
        }
      } else {
        match c
        case '"' => inString := true;
        case '{' => depth := depth + 1;
        case '}' =>
          depth := depth - 1;
          if depth == 0 {
            assert body[start..][..i + 1 - start] == body[start..i + 1];
            return Some(body[start..i + 1]);
          }
        case _ =>
      }
      i := i + 1;
    }
    r := None;
  }
}
