/** Which file of a day takes the next audit record. */
module Segments {
  type FileId = string

  const AUDIT_SEGMENT_MAX_BYTES: nat := 1024 * 1024
  const MAX_SEGMENT: nat := 999_999

  /* ---- decimal numbers ---- */

  predicate IsDigit(c: char) {
    '0' <= c <= '9'
  }

  predicate AllDigits(s: string) {
    forall i | 0 <= i < |s| :: IsDigit(s[i])
  }

  lemma IsDigitIff(c: char)
    ensures IsDigit(c) <==> c in "0123456789"
    ensures IsDigit(c) ==> "0123456789"[(c - '0') as nat] == c
  {
    var digits := "0123456789";
    assert c in digits <==> exists i | 0 <= i < 10 :: digits[i] == c;
    assert '0' <= c <= '9' ==> digits[(c - '0') as nat] == c;
  }

  function DigitOf(n: nat): (c: char)
    requires n < 10
    ensures IsDigit(c) && (c - '0') as nat == n
  {
    '0' + n as char
  }

  // format!("{n:0w}"): at least `w` digits.
  function Padded(n: nat, w: nat): (s: string)
    ensures AllDigits(s)
    decreases n + w
  {
    if n < 10 && w <= 1 then [DigitOf(n)]
    else Padded(n / 10, if w <= 1 then 0 else w - 1) + [DigitOf(n % 10)]
  }

  // parse::<u32>() on digits, without the overflow that six digits cannot reach
  function ValueFrom(acc: nat, s: string): nat
    requires AllDigits(s)
    decreases |s|
  {
    if s == "" then acc else ValueFrom(acc * 10 + (s[0] - '0') as nat, s[1..])
  }

  function Value(s: string): nat
    requires AllDigits(s)
  {
    ValueFrom(0, s)
  }

  lemma {:induction false} ValueOneMore(acc: nat, s: string, c: char)
    requires AllDigits(s) && IsDigit(c)
    ensures ValueFrom(acc, s + [c]) == ValueFrom(acc, s) * 10 + (c - '0') as nat
    decreases |s|
  {
    if s == "" {
      assert ([] + [c])[1..] == [];
    } else {
      assert (s + [c])[0] == s[0] && (s + [c])[1..] == s[1..] + [c];
      ValueOneMore(acc * 10 + (s[0] - '0') as nat, s[1..], c);
    }
  }

  function Pow10(w: nat): nat {
    if w == 0 then 1 else 10 * Pow10(w - 1)
  }

  lemma {:induction false} PaddedValue(n: nat, w: nat)
    requires w > 0
    ensures Value(Padded(n, w)) == n
    ensures n < Pow10(w) ==> |Padded(n, w)| == w
    ensures n >= Pow10(w) ==> |Padded(n, w)| > w
    decreases n + w
  {
    if n < 10 && w <= 1 {
      assert Padded(n, w)[1..] == "" && ValueFrom(n, "") == n;
    } else if w == 1 {
      PaddedZero(n / 10);
      PaddedValue(n / 10, 1);
      ValueOneMore(0, Padded(n / 10, 1), DigitOf(n % 10));
    } else {
      PaddedValue(n / 10, w - 1);
      ValueOneMore(0, Padded(n / 10, w - 1), DigitOf(n % 10));
    }
  }

  lemma PaddedZero(n: nat)
    ensures Padded(n, 0) == Padded(n, 1)
  {
  }

  /* ---- the order of file names ---- */

  // The order of BTreeMap<String, _>, and of a sorted directory listing.
  predicate Below(a: string, b: string) {
    b != "" && (a == "" || a[0] < b[0] || (a[0] == b[0] && Below(a[1..], b[1..])))
  }

  // The first difference is at `k`, and `a` is less there.
  predicate LessAt(a: string, b: string, k: nat) {
    k < |a| && k < |b| && a[..k] == b[..k] && a[k] < b[k]
  }

  lemma LessInTail(a: string, b: string, k: nat)
    requires a != "" && b != ""
    ensures LessAt(a, b, k + 1) <==> a[0] == b[0] && LessAt(a[1..], b[1..], k)
  {
    if k + 1 <= |a| && k + 1 <= |b| {
      assert a[..k + 1] == [a[0]] + a[1..][..k] && b[..k + 1] == [b[0]] + b[1..][..k];
    }
  }

  // It compares the first characters that differ; a proper beginning comes first.
  lemma {:induction false} BelowIff(a: string, b: string)
    ensures Below(a, b) <==> (a <= b && a != b) || exists k: nat :: LessAt(a, b, k)
  {
    if a != "" && b != "" {
      BelowIff(a[1..], b[1..]);
      assert a == [a[0]] + a[1..] && b == [b[0]] + b[1..];
      if k: nat :| LessAt(a[1..], b[1..], k) {
        LessInTail(a, b, k);
      }
      if k: nat :| LessAt(a, b, k) && k > 0 {
        LessInTail(a, b, k - 1);
      }
      assert a[0] < b[0] ==> LessAt(a, b, 0);
    }
  }

  lemma {:induction false} BelowIsTotal(a: string, b: string)
    ensures a == b || Below(a, b) || Below(b, a)
    ensures !(Below(a, b) && Below(b, a)) && !Below(a, a)
  {
    if a != "" && b != "" {
      BelowIsTotal(a[1..], b[1..]);
      if a[0] == b[0] && a[1..] == b[1..] {
        assert a == [a[0]] + a[1..] && b == [b[0]] + b[1..];
      }
    }
    if a != "" {
      BelowIsTotal(a[1..], a[1..]);
    }
  }

  lemma {:induction false} BelowIsTransitive(a: string, b: string, c: string)
    requires Below(a, b) && Below(b, c)
    ensures Below(a, c)
  {
    if a != "" && a[0] == b[0] == c[0] {
      BelowIsTransitive(a[1..], b[1..], c[1..]);
    }
  }

  lemma {:induction false} BelowUnderPrefix(p: string, a: string, b: string)
    ensures Below(p + a, p + b) <==> Below(a, b)
  {
    if p == "" {
      assert p + a == a && p + b == b;
    } else {
      assert (p + a)[1..] == p[1..] + a && (p + b)[1..] == p[1..] + b;
      BelowUnderPrefix(p[1..], a, b);
    }
  }

  lemma {:induction false} LargerAccumulator(x: nat, a: string, y: nat, b: string)
    requires AllDigits(a) && AllDigits(b) && |a| == |b| && x < y
    ensures ValueFrom(x, a) < ValueFrom(y, b)
    decreases |a|
  {
    if a != "" {
      LargerAccumulator(x * 10 + (a[0] - '0') as nat, a[1..], y * 10 + (b[0] - '0') as nat, b[1..]);
    }
  }

  // For numbers of the same width the order of names is the order of values.
  lemma {:induction false} BelowIsLess(acc: nat, a: string, b: string)
    requires AllDigits(a) && AllDigits(b) && |a| == |b|
    ensures Below(a, b) <==> ValueFrom(acc, a) < ValueFrom(acc, b)
    decreases |a|
  {
    if a != "" {
      var x, y := acc * 10 + (a[0] - '0') as nat, acc * 10 + (b[0] - '0') as nat;
      if a[0] < b[0] {
        LargerAccumulator(x, a[1..], y, b[1..]);
      } else if b[0] < a[0] {
        LargerAccumulator(y, b[1..], x, a[1..]);
      } else {
        BelowIsLess(x, a[1..], b[1..]);
      }
    }
  }

  /* ---- the active file ---- */

  // audit_file_id_matches_day
  predicate MatchesDay(id: FileId, day: string) {
    id == day
    || (|id| == |day| + 7 && day <= id && id[|day|] == '-' && AllDigits(id[|day| + 1..]))
  }

  function SegmentNumber(id: FileId, day: string): nat
    requires MatchesDay(id, day)
  {
    if id == day then 0 else Value(id[|day| + 1..])
  }

  function SegmentId(day: string, number: nat): FileId {
    if number == 0 then day else day + "-" + Padded(number, 6)
  }

  predicate IsGreatest(id: FileId, day: string, ids: set<FileId>) {
    id in ids && MatchesDay(id, day) && forall f | f in ids && MatchesDay(f, day) && f != id :: Below(f, id)
  }

  // The next record of a day goes to its greatest file while that is not full, or to
  // the first file of the day, or to a new file numbered after a full greatest one.
  ghost predicate RightFile(id: FileId, day: string, sizes: map<FileId, nat>) {
    && MatchesDay(id, day)
    && (forall f | f in sizes && MatchesDay(f, day) && f != id :: Below(f, id))
    && (if id in sizes then sizes[id] < AUDIT_SEGMENT_MAX_BYTES
        else if forall f | f in sizes :: !MatchesDay(f, day) then id == day
        else exists f | IsGreatest(f, day, sizes.Keys) ::
               sizes[f] >= AUDIT_SEGMENT_MAX_BYTES && SegmentNumber(id, day) == SegmentNumber(f, day) + 1)
  }

  // The numbers of the day have not run out.
  ghost predicate HasRoom(day: string, sizes: map<FileId, nat>) {
    forall f | IsGreatest(f, day, sizes.Keys) ::
      sizes[f] < AUDIT_SEGMENT_MAX_BYTES || SegmentNumber(f, day) < MAX_SEGMENT
  }

  // The name that follows number 999999: no file of the day has it.
  function Overflow(day: string): FileId {
    SegmentId(day, MAX_SEGMENT + 1)
  }

  // Where the next record of a day goes, whatever is there.
  ghost predicate Takes(id: FileId, day: string, sizes: map<FileId, nat>) {
    if HasRoom(day, sizes) then RightFile(id, day, sizes) else id == Overflow(day)
  }

  ghost function Taking(day: string, sizes: map<FileId, nat>): iset<FileId> {
    iset id | Takes(id, day, sizes)
  }

  // The order of the files of a day is the order of their segment numbers.
  lemma SegmentOrder(a: FileId, b: FileId, day: string)
    requires MatchesDay(a, day) && MatchesDay(b, day)
    requires SegmentNumber(a, day) < SegmentNumber(b, day)
    ensures Below(a, b)
  {
    if a == day {
      var rest := b[|day|..];
      assert b == day + rest && a == day + "";
      BelowUnderPrefix(day, "", rest);
    } else {
      var prefix := day + "-";
      assert a == prefix + a[|day| + 1..] && b == prefix + b[|day| + 1..];
      BelowUnderPrefix(prefix, a[|day| + 1..], b[|day| + 1..]);
      BelowIsLess(0, a[|day| + 1..], b[|day| + 1..]);
    }
  }

  lemma SegmentIdMatches(day: string, number: nat)
    requires 0 < number
    ensures MatchesDay(SegmentId(day, number), day) <==> number <= MAX_SEGMENT
    ensures number <= MAX_SEGMENT ==> SegmentNumber(SegmentId(day, number), day) == number
  {
    var id, digits := SegmentId(day, number), Padded(number, 6);
    PaddedValue(number, 6);
    MillionIsTenToTheSixth();
    assert id == (day + "-") + digits && id[|day| + 1..] == digits;
  }

  lemma {:induction false} ValueBelowPower(acc: nat, s: string)
    requires AllDigits(s)
    ensures ValueFrom(acc, s) < (acc + 1) * Pow10(|s|)
    decreases |s|
  {
    if s != "" {
      var digit := (s[0] - '0') as nat;
      ValueBelowPower(acc * 10 + digit, s[1..]);
      var power := Pow10(|s| - 1);
      assert (acc * 10 + digit + 1) * power <= (acc + 1) * (10 * power);
    }
  }

  lemma NumbersHaveSixDigits(id: FileId, day: string)
    requires MatchesDay(id, day)
    ensures SegmentNumber(id, day) <= MAX_SEGMENT
  {
    if id != day {
      ValueBelowPower(0, id[|day| + 1..]);
      MillionIsTenToTheSixth();
    }
  }

  lemma MillionIsTenToTheSixth()
    ensures Pow10(6) == MAX_SEGMENT + 1
  {
    assert Pow10(3) == 1_000;
  }

  // active_audit_file_id: six digits are all that the name of a segment can hold.
  method ActiveAuditFileId(day: string, sizes: map<FileId, nat>) returns (id: FileId)
    ensures Takes(id, day, sizes)
  {
    var matching := set f | f in sizes && MatchesDay(f, day);
    assert forall f | f in sizes && MatchesDay(f, day) :: f in matching;
    if matching == {} {
      return day;
    }
    GreatestExists(matching);
    var greatest :| greatest in matching && forall f | f in matching && f != greatest :: Below(f, greatest);
    assert IsGreatest(greatest, day, sizes.Keys);
    GreatestIsUnique(greatest, day, sizes.Keys);
    if sizes[greatest] < AUDIT_SEGMENT_MAX_BYTES {
      return greatest;
    }
    id := SegmentId(day, SegmentNumber(greatest, day) + 1);
    NextSegmentIsRight(greatest, day, sizes);
  }

  lemma GreatestIsUnique(g: FileId, day: string, ids: set<FileId>)
    requires IsGreatest(g, day, ids)
    ensures forall f | IsGreatest(f, day, ids) :: f == g
  {
    forall f | IsGreatest(f, day, ids)
      ensures f == g
    {
      BelowIsTotal(f, g);
    }
  }

  lemma NextSegmentIsRight(g: FileId, day: string, sizes: map<FileId, nat>)
    requires IsGreatest(g, day, sizes.Keys) && sizes[g] >= AUDIT_SEGMENT_MAX_BYTES
    ensures var id := SegmentId(day, SegmentNumber(g, day) + 1);
            if SegmentNumber(g, day) < MAX_SEGMENT then RightFile(id, day, sizes) else id == Overflow(day)
  {
    var number := SegmentNumber(g, day) + 1;
    var id := SegmentId(day, number);
    SegmentIdMatches(day, number);
    NumbersHaveSixDigits(g, day);
    if number <= MAX_SEGMENT {
      SegmentOrder(g, id, day);
      forall f | f in sizes && MatchesDay(f, day)
        ensures Below(f, id) && f != id
      {
        if f != g {
          BelowIsTransitive(f, g, id);
        }
        BelowIsTotal(id, id);
      }
    }
  }

  lemma {:induction false} GreatestExists(ids: set<FileId>)
    requires ids != {}
    ensures exists g | g in ids :: forall f | f in ids && f != g :: Below(f, g)
  {
    var x :| x in ids;
    var rest := ids - {x};
    if rest == {} {
      assert ids == {x};
    } else {
      GreatestExists(rest);
      var g :| g in rest && forall f | f in rest && f != g :: Below(f, g);
      BelowIsTotal(x, g);
      if Below(g, x) {
        forall f | f in rest
          ensures Below(f, x)
        {
          if f != g {
            BelowIsTransitive(f, g, x);
          }
        }
      }
      var top := if Below(g, x) then x else g;
      assert top in ids && forall f | f in ids && f != top :: Below(f, top);
    }
  }
}
