/** A scheme that meets every demand the audit theorems make of one. */
module AuditScheme {
  import opened Common
  import opened Text
  import opened AuditChain

  // Two characters for one, neither of them a line feed, a bar or a brace.
  function Escape(text: string): (escaped: string)
    ensures |escaped| == 2 * |text|
    ensures forall c | c in escaped :: c as int >= 0x100
  {
    if text == "" then ""
    else
      var code := text[0] as int;
      [(code / 0x1000 + 0x100) as char, (code % 0x1000 + 0x1000) as char] + Escape(text[1..])
  }

  lemma {:induction false} EscapeIsInjective(a: string, b: string)
    requires Escape(a) == Escape(b)
    ensures a == b
  {
    if a != "" {
      assert Escape(a)[0] == Escape(b)[0] && Escape(a)[1] == Escape(b)[1];
      assert Escape(a)[2..] == Escape(a[1..]) && Escape(b)[2..] == Escape(b[1..]);
      EscapeIsInjective(a[1..], b[1..]);
      assert a[0] as int == b[0] as int;
      assert a == [a[0]] + a[1..] && b == [b[0]] + b[1..];
    }
  }

  function Pair(a: string, b: string): (text: string)
    ensures |text| == 2 * |a| + 1 + 2 * |b|
    ensures forall c | c in text :: c == '|' || c as int >= 0x100
  {
    Escape(a) + "|" + Escape(b)
  }

  lemma BarOf(a: string, b: string)
    ensures Pair(a, b)[..2 * |a|] == Escape(a) && Pair(a, b)[2 * |a|] == '|' && Pair(a, b)[2 * |a| + 1..] == Escape(b)
    ensures forall i | 0 <= i < 2 * |a| :: Pair(a, b)[i] != '|'
  {
    forall i | 0 <= i < 2 * |a|
      ensures Pair(a, b)[i] != '|'
    {
      assert Pair(a, b)[i] == Escape(a)[i];
      assert Escape(a)[i] in Escape(a);
    }
  }

  lemma PairIsInjective(a: string, b: string, c: string, d: string)
    requires Pair(a, b) == Pair(c, d)
    ensures a == c && b == d
  {
    BarOf(a, b);
    BarOf(c, d);
    assert |a| == |c|;
    EscapeIsInjective(a, c);
    EscapeIsInjective(b, d);
  }

  function Encode(r: Sealed): string {
    "{" + Pair(r.body, r.hash) + "}"
  }

  function Compose(request: string, prev: string): string {
    Pair(prev, request)
  }

  function Seal(body: string): string {
    body + "x"
  }

  ghost function Parse(line: string): (r: Option<Sealed>)
    ensures r.Some? ==> Encode(r.value) == line
    ensures r.None? ==> forall x :: Encode(x) != line
  {
    if x: Sealed :| Encode(x) == line then Some(x) else None
  }

  ghost function TailHash(line: string): Option<string> {
    var r := Parse(line);
    if r.Some? then Some(r.value.hash) else None
  }

  ghost predicate IsPrev(body: string, prev: string) {
    exists request :: Compose(request, prev) == body
  }

  // The first half of a pair, or nothing.
  ghost function PrevOf(body: string): (prev: string)
    ensures |prev| <= |body|
  {
    if prev: string :| IsPrev(body, prev) then prev else ""
  }

  lemma ComposeReadsBack(request: string, prev: string)
    ensures PrevOf(Compose(request, prev)) == prev
  {
    var body := Compose(request, prev);
    assert IsPrev(body, prev);
    var other :| Compose(other, PrevOf(body)) == body;
    PairIsInjective(prev, request, PrevOf(body), other);
  }

  lemma EncodeReadsBack(r: Sealed)
    ensures Parse(Encode(r)) == Some(r)
    ensures '\n' !in Encode(r) && !IsBlank(Encode(r)) && StripReturn(Encode(r)) == Encode(r)
  {
    var other := Parse(Encode(r)).value;
    assert Encode(r)[1..|Encode(r)| - 1] == Pair(r.body, r.hash);
    assert Encode(other)[1..|Encode(other)| - 1] == Pair(other.body, other.hash);
    PairIsInjective(r.body, r.hash, other.body, other.hash);
    assert Encode(r)[0] == '{' && Encode(r)[|Encode(r)| - 1] == '}';
  }

  lemma OneBrace(r: Sealed, i: nat)
    requires 0 < i < |Encode(r)|
    ensures Encode(r)[i] != '{'
  {
    if i < |Encode(r)| - 1 {
      assert Encode(r)[i] == Pair(r.body, r.hash)[i - 1];
      assert Pair(r.body, r.hash)[i - 1] in Pair(r.body, r.hash);
    }
  }

  // A record that is the tail of another starts where the only opening brace is.
  lemma TailIsWhole(r: Sealed, t: Sealed)
    requires IsTail(Encode(r), Encode(t))
    ensures r == t
  {
    var at := |Encode(t)| - |Encode(r)|;
    assert Encode(t)[at] == Encode(t)[at..][0] == Encode(r)[0] == '{';
    if at > 0 {
      OneBrace(t, at);
    }
    EncodeReadsBack(r);
    EncodeReadsBack(t);
  }

  function Unary(n: nat): string {
    seq(n, _ => 'x')
  }

  lemma UnaryIsInjective(m: nat, n: nat)
    requires Unary(m) == Unary(n)
    ensures m == n
  {
    assert |Unary(m)| == m && |Unary(n)| == n;
  }

  function EntryText(e: Entry): string {
    match e
    case Entry(count, last, mac) => Pair(Unary(count), Pair(last, mac))
    case MalformedEntry => ""
  }

  lemma EntryTextIsInjective(a: Entry, b: Entry)
    requires EntryText(a) == EntryText(b)
    ensures a == b
  {
    if a.Entry? && b.Entry? {
      PairIsInjective(Unary(a.count), Pair(a.last, a.mac), Unary(b.count), Pair(b.last, b.mac));
      UnaryIsInjective(a.count, b.count);
      PairIsInjective(a.last, a.mac, b.last, b.mac);
    }
  }

  ghost function SomeKey(entries: map<string, Entry>): (key: string)
    requires entries != map[]
    ensures key in entries
  {
    assert entries.Keys != {};
    var key :| key in entries; key
  }

  // The entries one by one, in some order that depends on the map alone.
  ghost function EntriesText(entries: map<string, Entry>): string
    decreases |entries|
  {
    if entries == map[] then "" else
      var key := SomeKey(entries);
      Pair(Pair(key, EntryText(entries[key])), EntriesText(entries - {key}))
  }

  lemma WithKeyAgain(entries: map<string, Entry>, key: string)
    requires key in entries
    ensures (entries - {key})[key := entries[key]] == entries && |entries - {key}| < |entries|
  {
    assert (entries - {key}).Keys == entries.Keys - {key};
  }

  lemma {:induction false} EntriesTextIsInjective(a: map<string, Entry>, b: map<string, Entry>)
    requires EntriesText(a) == EntriesText(b)
    ensures a == b
    decreases |a|
  {
    if a != map[] && b != map[] {
      var j, k := SomeKey(a), SomeKey(b);
      PairIsInjective(Pair(j, EntryText(a[j])), EntriesText(a - {j}), Pair(k, EntryText(b[k])), EntriesText(b - {k}));
      PairIsInjective(j, EntryText(a[j]), k, EntryText(b[k]));
      EntryTextIsInjective(a[j], b[k]);
      EntriesTextIsInjective(a - {j}, b - {k});
      WithKeyAgain(a, j);
      WithKeyAgain(b, k);
    }
  }

  ghost function ManifestText(version: nat, generation: nat, entries: map<string, Entry>): string {
    Pair(Unary(version), Pair(Unary(generation), EntriesText(entries)))
  }

  lemma ManifestTextIsInjective(v: nat, g: nat, e: map<string, Entry>, v': nat, g': nat, e': map<string, Entry>)
    requires ManifestText(v, g, e) == ManifestText(v', g', e')
    ensures v == v' && g == g' && e == e'
  {
    PairIsInjective(Unary(v), Pair(Unary(g), EntriesText(e)), Unary(v'), Pair(Unary(g'), EntriesText(e')));
    PairIsInjective(Unary(g), EntriesText(e), Unary(g'), EntriesText(e'));
    UnaryIsInjective(v, v');
    UnaryIsInjective(g, g');
    EntriesTextIsInjective(e, e');
  }

  ghost function Example(): Scheme {
    Scheme(Encode, Parse, TailHash, Compose, PrevOf, body => true, Seal, (body, hash) => hash == Seal(body),
           (id, count, last) => "", ManifestText)
  }

  lemma ExampleHolds()
    ensures Example().Valid() && Example().Binding() && Example().Separated()
  {
    var s := Example();
    forall r
      ensures s.parse(s.encode(r)) == Some(r) && s.tailHash(s.encode(r)) == Some(r.hash)
      ensures '\n' !in s.encode(r) && !IsBlank(s.encode(r)) && StripReturn(s.encode(r)) == s.encode(r)
    {
      EncodeReadsBack(r);
    }
    forall request, prev
      ensures s.prevOf(s.compose(request, prev)) == prev
    {
      ComposeReadsBack(request, prev);
    }
    forall a, b, hash | s.accepts(a, hash) && s.accepts(b, hash)
      ensures a == b
    {
      assert hash[..|hash| - 1] == a && hash[..|hash| - 1] == b;
    }
    forall r, t | IsTail(s.encode(r), s.encode(t))
      ensures r == t
    {
      TailIsWhole(r, t);
    }
  }

  lemma ExampleIsDistinct()
    ensures Example().Distinct()
  {
    forall v, g, entries, v', g', entries' | ManifestText(v, g, entries) == ManifestText(v', g', entries')
      ensures v == v' && g == g' && entries == entries'
    {
      ManifestTextIsInjective(v, g, entries, v', g', entries');
    }
  }

  // The hypotheses of the audit theorems can be met together.
  lemma SchemesExist()
    ensures exists s: Scheme :: s.Valid() && s.Binding() && s.Separated() && s.Distinct()
  {
    ExampleHolds();
    ExampleIsDistinct();
  }
}
