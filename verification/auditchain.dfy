/** The records of one audit file: how they are written, chained and read back. */
module AuditChain {
  import opened Common
  import opened Text

  // A record as stored: the canonical JSON without its hash, and the hash string.
  datatype Sealed = Sealed(body: string, hash: string)

  // The head manifest's account of one file.
  datatype Entry = Entry(count: nat, last: string, mac: string) | MalformedEntry

  // JSON encoding and the keyed functions of one log, under one key. `tailHash` reads
  // the hash off any JSON value, and an absent one as empty.
  datatype Scheme = Scheme(
    encode: Sealed -> string,
    parse: string -> Option<Sealed>,
    tailHash: string -> Option<string>,
    compose: (string, string) -> string,
    prevOf: string -> string,
    keyed: string -> bool,
    seal: string -> string,
    accepts: (string, string) -> bool,
    entryMac: (string, nat, string) -> string,
    manifestMac: (nat, nat, map<string, Entry>) -> string)
  {
    // A printed record is one line that reads back, a new body carries the hash it
    // was given, and a sealed body verifies.
    ghost predicate Valid() {
      && (forall r :: parse(encode(r)) == Some(r) && tailHash(encode(r)) == Some(r.hash))
      && (forall r :: '\n' !in encode(r) && !IsBlank(encode(r)) && StripReturn(encode(r)) == encode(r))
      && (forall request, prev :: prevOf(compose(request, prev)) == prev && keyed(compose(request, prev)))
      && (forall body :: keyed(body) ==> accepts(body, seal(body)))
    }

    // No hash verifies for two bodies.
    ghost predicate Binding() {
      forall a, b, hash :: accepts(a, hash) && accepts(b, hash) ==> a == b
    }

    // No printed record is the tail of another, as no JSON object text is, and no
    // record is sealed with the very hash it links to.
    ghost predicate Separated() {
      && (forall r, t :: IsTail(encode(r), encode(t)) ==> r == t)
      && (forall body :: seal(body) != prevOf(body))
    }

    // No two head manifests have the same MAC.
    ghost predicate Distinct() {
      forall v, g, entries, v', g', entries' ::
        manifestMac(v, g, entries) == manifestMac(v', g', entries') ==> v == v' && g == g' && entries == entries'
    }
  }

  predicate IsTail(tail: string, s: string) {
    |tail| <= |s| && s[|s| - |tail|..] == tail
  }

  /* ---- text ---- */

  function LineOf(s: Scheme, r: Sealed): string {
    s.encode(r) + "\n"
  }

  function Printed(s: Scheme, records: seq<Sealed>): (text: string)
    ensures EndsLine(text)
  {
    if records == [] then "" else Printed(s, records[..|records| - 1]) + LineOf(s, records[|records| - 1])
  }

  // The nonblank lines, each parsed or found malformed.
  function Rows(s: Scheme, lines: seq<string>): seq<Option<Sealed>> {
    if lines == [] then []
    else (if IsBlank(lines[0]) then [] else [s.parse(lines[0])]) + Rows(s, lines[1..])
  }

  function Wrapped(records: seq<Sealed>): (rows: seq<Option<Sealed>>)
    ensures |rows| == |records|
  {
    if records == [] then [] else Wrapped(records[..|records| - 1]) + [Some(records[|records| - 1])]
  }

  lemma {:induction false} RowsAppend(s: Scheme, a: seq<string>, b: seq<string>)
    ensures Rows(s, a + b) == Rows(s, a) + Rows(s, b)
  {
    if a == [] {
      assert a + b == b;
    } else {
      assert (a + b)[0] == a[0] && (a + b)[1..] == a[1..] + b;
      RowsAppend(s, a[1..], b);
    }
  }

  lemma OneRow(s: Scheme, r: Sealed)
    requires s.Valid()
    ensures Rows(s, Lines(LineOf(s, r))) == [Some(r)]
  {
    var line := s.encode(r);
    OneLine(line);
    assert [line][1..] == [];
    assert Rows(s, [line]) == [s.parse(line)] + Rows(s, []);
  }

  lemma RowsOfOneMore(s: Scheme, text: string, r: Sealed)
    requires s.Valid() && EndsLine(text)
    ensures Rows(s, Lines(text + LineOf(s, r))) == Rows(s, Lines(text)) + [Some(r)]
  {
    LinesAppend(text, LineOf(s, r));
    RowsAppend(s, Lines(text), Lines(LineOf(s, r)));
    OneRow(s, r);
  }

  // Reading undoes printing.
  lemma {:induction false} PrintedReadsBack(s: Scheme, records: seq<Sealed>)
    requires s.Valid()
    ensures Rows(s, Lines(Printed(s, records))) == Wrapped(records)
  {
    if records != [] {
      var n := |records| - 1;
      var rest, last := records[..n], records[n];
      PrintedReadsBack(s, rest);
      assert EndsLine(Printed(s, rest));
      RowsOfOneMore(s, Printed(s, rest), last);
      assert Printed(s, records) == Printed(s, rest) + LineOf(s, last);
    }
  }

  /* ---- chains ---- */

  function LastHash(records: seq<Sealed>): string {
    if records == [] then "" else records[|records| - 1].hash
  }

  // Every record verifies and names the hash of the one before it.
  predicate Chained(s: Scheme, records: seq<Sealed>) {
    forall i | 0 <= i < |records| ::
      s.accepts(records[i].body, records[i].hash) && s.prevOf(records[i].body) == LastHash(records[..i])
  }

  lemma ChainedPrefix(s: Scheme, records: seq<Sealed>, n: nat)
    requires Chained(s, records) && n <= |records|
    ensures Chained(s, records[..n])
  {
    forall i | 0 <= i < n
      ensures s.accepts(records[..n][i].body, records[..n][i].hash)
      ensures s.prevOf(records[..n][i].body) == LastHash(records[..n][..i])
    {
      assert records[..n][..i] == records[..i];
    }
  }

  // Length and final hash determine a chain: backward, each record fixes the one before.
  lemma {:induction false} ChainDetermined(s: Scheme, a: seq<Sealed>, b: seq<Sealed>)
    requires s.Binding() && Chained(s, a) && Chained(s, b)
    requires |a| == |b| && LastHash(a) == LastHash(b)
    ensures a == b
  {
    if a != [] {
      var n := |a| - 1;
      assert a[n].body == b[n].body;
      ChainedPrefix(s, a, n);
      ChainedPrefix(s, b, n);
      ChainDetermined(s, a[..n], b[..n]);
      assert a == a[..n] + [a[n]] && b == b[..n] + [b[n]];
    }
  }
}
