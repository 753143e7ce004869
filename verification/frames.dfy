/** The response loop of `call_once`: one newline-terminated frame out of many reads. */
module Frames {
  import opened Text

  const MAX_RESPONSE_FRAME_BYTES: nat := 1024 * 1024

  // One read of a nonblocking socket; a read of nothing is the end of the stream. One
  // character stands for one byte.
  datatype Read = Data(bytes: string) | NotReady | Fault

  // One turn of the loop: the clock, what a probe of the endpoint would find, the read.
  datatype Turn = Turn(now: nat, replaced: bool, read: Read)

  datatype Outcome = Frame(bytes: string) | TimedOut | Unreachable | Unterminated | TooLong | Waiting

  /* ---- what the stream alone determines ---- */

  datatype Ending = Open | Closed | Broken

  datatype Stream = Stream(bytes: string, ending: Ending)

  function Extend(s: Stream, read: Read): Stream {
    if s.ending != Open then s
    else match read
      case NotReady => s
      case Fault => s.(ending := Broken)
      case Data(bytes) => if bytes == "" then s.(ending := Closed) else Stream(s.bytes + bytes, Open)
  }

  // The concatenation of the reads up to the end of the stream, and how it ended.
  function Collected(turns: seq<Turn>): Stream {
    if turns == [] then Stream("", Open) else Extend(Collected(turns[..|turns| - 1]), turns[|turns| - 1].read)
  }

  // The bytes before the first newline, if they are few enough.
  function Verdict(s: Stream): Outcome {
    var length := FirstNewline(s.bytes);
    if length > MAX_RESPONSE_FRAME_BYTES then TooLong
    else if length < |s.bytes| then Frame(s.bytes[..length])
    else match s.ending
      case Open => Waiting
      case Closed => if s.bytes == "" then Unreachable else Unterminated
      case Broken => Unreachable
  }

  // No end of the frame is in sight, and it is not too long.
  predicate Unfinished(s: Stream) {
    '\n' !in s.bytes && |s.bytes| <= MAX_RESPONSE_FRAME_BYTES
  }

  // What an outcome says of the stream that it is about.
  predicate Says(r: Outcome, s: Stream) {
    match r
    case Frame(b) => '\n' !in b && |b| <= MAX_RESPONSE_FRAME_BYTES && b + "\n" <= s.bytes
    case TooLong => |s.bytes| > MAX_RESPONSE_FRAME_BYTES && '\n' !in s.bytes[..MAX_RESPONSE_FRAME_BYTES + 1]
    case Unreachable => Unfinished(s) && (s.ending == Broken || (s.ending == Closed && s.bytes == ""))
    case Unterminated => Unfinished(s) && s.ending == Closed && s.bytes != ""
    case Waiting => Unfinished(s) && s.ending == Open
    case TimedOut => false
  }

  lemma NewlineAfter(b: string, s: string)
    requires '\n' !in b && b + "\n" <= s
    ensures FirstNewline(s) == |b| < |s| && s[..|b|] == b
  {
    var i := FirstNewline(s);
    assert (b + "\n")[|b|] == '\n' && s[|b|] == (b + "\n")[|b|];
    assert b == (b + "\n")[..|b|] == s[..|b|];
    assert forall j | 0 <= j < |b| :: s[j] == b[j];
    assert forall j | 0 <= j < i :: s[j] == s[..i][j] && s[..i][j] in s[..i];
  }

  // Of every stream exactly one outcome says the truth: its verdict.
  lemma VerdictIsTrue(r: Outcome, s: Stream)
    ensures Says(r, s) <==> r == Verdict(s)
  {
    var i := FirstNewline(s.bytes);
    if i > MAX_RESPONSE_FRAME_BYTES {
      assert s.bytes[..MAX_RESPONSE_FRAME_BYTES + 1] <= s.bytes[..i];
    } else if i < |s.bytes| {
      assert s.bytes[..i] + "\n" == s.bytes[..i + 1];
      assert |s.bytes| > MAX_RESPONSE_FRAME_BYTES ==> s.bytes[..MAX_RESPONSE_FRAME_BYTES + 1][i] == '\n';
    } else {
      assert s.bytes[..i] == s.bytes;
    }
    if r.Frame? && Says(r, s) {
      NewlineAfter(r.bytes, s.bytes);
    }
  }

  lemma VerdictSpelledOut(s: Stream)
    ensures Verdict(s) != TimedOut
    ensures forall b :: Verdict(s) == Frame(b) <==>
                          '\n' !in b && |b| <= MAX_RESPONSE_FRAME_BYTES && b + "\n" <= s.bytes
    ensures Verdict(s) == TooLong <==>
              |s.bytes| > MAX_RESPONSE_FRAME_BYTES && '\n' !in s.bytes[..MAX_RESPONSE_FRAME_BYTES + 1]
    ensures '\n' !in s.bytes && |s.bytes| <= MAX_RESPONSE_FRAME_BYTES ==>
              Verdict(s) == match s.ending
                            case Open => Waiting
                            case Broken => Unreachable
                            case Closed => if s.bytes == "" then Unreachable else Unterminated
  {
    forall b
      ensures Verdict(s) == Frame(b) <==> Says(Frame(b), s)
    {
      VerdictIsTrue(Frame(b), s);
    }
    VerdictIsTrue(TooLong, s);
    VerdictIsTrue(Verdict(s), s);
  }

  lemma {:induction false} FirstNewlineAppend(a: string, b: string)
    ensures FirstNewline(a + b) == if FirstNewline(a) < |a| then FirstNewline(a) else |a| + FirstNewline(b)
  {
    if a == "" {
      assert a + b == b;
    } else {
      assert (a + b)[1..] == a[1..] + b;
      FirstNewlineAppend(a[1..], b);
    }
  }

  lemma ExtendedVerdict(s: Stream, read: Read)
    requires Verdict(s) != Waiting
    ensures Verdict(Extend(s, read)) == Verdict(s)
  {
    if read.Data? {
      FirstNewlineAppend(s.bytes, read.bytes);
      if FirstNewline(s.bytes) < |s.bytes| {
        assert (s.bytes + read.bytes)[..FirstNewline(s.bytes)] == s.bytes[..FirstNewline(s.bytes)];
      }
    }
  }

  // What is settled is not changed by anything that follows.
  lemma {:induction false} VerdictIsFinal(turns: seq<Turn>, n: nat)
    requires n <= |turns| && Verdict(Collected(turns[..n])) != Waiting
    ensures Verdict(Collected(turns)) == Verdict(Collected(turns[..n]))
  {
    if n == |turns| {
      assert turns[..n] == turns;
    } else {
      var shorter := turns[..|turns| - 1];
      assert shorter[..n] == turns[..n];
      VerdictIsFinal(shorter, n);
      ExtendedVerdict(Collected(shorter), turns[|turns| - 1].read);
    }
  }

  /* ---- when the clock cuts in ---- */

  // When the next probe is due, after these turns.
  function NextProbe(turns: seq<Turn>, first: nat, interval: nat): nat {
    if turns == [] then first
    else
      var due, now := NextProbe(turns[..|turns| - 1], first, interval), turns[|turns| - 1].now;
      if now >= due then now + interval else due
  }

  // The endpoint is probed at turn `i`.
  predicate Probes(turns: seq<Turn>, i: nat, first: nat, interval: nat)
    requires i < |turns|
  {
    turns[i].now >= NextProbe(turns[..i], first, interval)
  }

  // No turn from `k` on and before `i` does so.
  predicate Quiet(turns: seq<Turn>, k: nat, i: nat, first: nat, interval: nat)
    requires i <= |turns|
  {
    forall j: nat | k <= j < i :: !Probes(turns, j, first, interval)
  }

  // A probe is due once the first time has come,
  lemma {:induction false} FirstProbe(turns: seq<Turn>, i: nat, first: nat, interval: nat)
    requires i <= |turns| && Quiet(turns, 0, i, first, interval)
    ensures NextProbe(turns[..i], first, interval) == first
  {
    if i > 0 {
      OneTurnMore(turns, i - 1, first, interval);
      FirstProbe(turns, i - 1, first, interval);
      assert !Probes(turns, i - 1, first, interval);
    }
  }

  // and then an interval after the last one.
  lemma {:induction false} ProbesAreSpaced(turns: seq<Turn>, k: nat, i: nat, first: nat, interval: nat)
    requires k < i <= |turns| && Probes(turns, k, first, interval) && Quiet(turns, k + 1, i, first, interval)
    ensures NextProbe(turns[..i], first, interval) == turns[k].now + interval
  {
    OneTurnMore(turns, i - 1, first, interval);
    if k < i - 1 {
      ProbesAreSpaced(turns, k, i - 1, first, interval);
      assert !Probes(turns, i - 1, first, interval);
    }
  }

  // At turn `i` the deadline has passed, or a due probe finds another endpoint.
  predicate Stops(turns: seq<Turn>, i: nat, deadline: nat, first: nat, interval: nat)
    requires i < |turns|
  {
    turns[i].now >= deadline || (Probes(turns, i, first, interval) && turns[i].replaced)
  }

  lemma TakeAcross(a: string, b: string, n: nat)
    requires n <= |b|
    ensures (a + b)[..|a| + n] == a + b[..n]
  {
  }

  // One read, with nothing settled so far: the verdict it brings, or the longer buffer.
  method Receive(response: string, read: Read) returns (verdict: Outcome, extended: string)
    requires FirstNewline(response) == |response| <= MAX_RESPONSE_FRAME_BYTES
    ensures verdict == Verdict(Extend(Stream(response, Open), read))
    ensures Says(verdict, Extend(Stream(response, Open), read))
    ensures FirstNewline(extended) == |extended| <= MAX_RESPONSE_FRAME_BYTES
    ensures verdict == Waiting ==> Extend(Stream(response, Open), read) == Stream(extended, Open)
  {
    extended := response;
    ghost var after := Extend(Stream(response, Open), read);
    VerdictIsTrue(Verdict(after), after);
    match read {
      case Data(received) =>
        if received == "" {
          return if response == "" then Unreachable else Unterminated, extended;
        }
        FirstNewlineAppend(response, received);
        var frameBytes := FirstNewline(received);
        if |response| + frameBytes > MAX_RESPONSE_FRAME_BYTES {
          return TooLong, extended;
        }
        TakeAcross(response, received, frameBytes);
        FirstNewlineAppend(response, received[..frameBytes]);
        NoNewline(received[..frameBytes]);
        extended := response + received[..frameBytes];
        verdict := if frameBytes < |received| then Frame(extended) else Waiting;
      case NotReady =>
        verdict := Waiting;
      case Fault =>
        verdict := Unreachable;
    }
  }

  lemma {:induction false} NoNewline(s: string)
    requires '\n' !in s
    ensures FirstNewline(s) == |s|
  {
    if s != "" {
      NoNewline(s[1..]);
    }
  }

  // The clock cuts in before the stream is settled.
  predicate TimesOut(turns: seq<Turn>, deadline: nat, first: nat, interval: nat) {
    exists i | 0 <= i < |turns| ::
      Stops(turns, i, deadline, first, interval) && Says(Waiting, Collected(turns[..i]))
  }

  // It does not cut in at any of the first turns.
  predicate Unstopped(turns: seq<Turn>, n: nat, deadline: nat, first: nat, interval: nat)
    requires n <= |turns|
  {
    n == 0 || (!Stops(turns, n - 1, deadline, first, interval) && Unstopped(turns, n - 1, deadline, first, interval))
  }

  lemma {:induction false} UnstoppedAt(turns: seq<Turn>, n: nat, i: nat, deadline: nat, first: nat, interval: nat)
    requires i < n <= |turns| && Unstopped(turns, n, deadline, first, interval)
    ensures !Stops(turns, i, deadline, first, interval)
  {
    if i < n - 1 {
      UnstoppedAt(turns, n - 1, i, deadline, first, interval);
    }
  }

  lemma StoppedInTime(turns: seq<Turn>, i: nat, deadline: nat, first: nat, interval: nat)
    requires i < |turns| && Stops(turns, i, deadline, first, interval) && Verdict(Collected(turns[..i])) == Waiting
    ensures TimesOut(turns, deadline, first, interval)
  {
  }

  lemma OneTurnMore(turns: seq<Turn>, i: nat, first: nat, interval: nat)
    requires i < |turns|
    ensures Collected(turns[..i + 1]) == Extend(Collected(turns[..i]), turns[i].read)
    ensures var due := NextProbe(turns[..i], first, interval);
            NextProbe(turns[..i + 1], first, interval) == if turns[i].now >= due then turns[i].now + interval else due
  {
    assert turns[..i + 1][..i] == turns[..i];
  }

  lemma SettledInTime(turns: seq<Turn>, n: nat, deadline: nat, first: nat, interval: nat)
    requires n <= |turns| && Unstopped(turns, n, deadline, first, interval)
    requires Verdict(Collected(turns[..n])) != Waiting
    ensures !TimesOut(turns, deadline, first, interval)
    ensures Verdict(Collected(turns)) == Verdict(Collected(turns[..n]))
  {
    forall i | n <= i <= |turns|
      ensures Verdict(Collected(turns[..i])) == Verdict(Collected(turns[..n]))
    {
      assert turns[..i][..n] == turns[..n];
      VerdictIsFinal(turns[..i], n);
    }
    forall i | 0 <= i < n
      ensures !Stops(turns, i, deadline, first, interval)
    {
      UnstoppedAt(turns, n, i, deadline, first, interval);
    }
    assert turns[..|turns|] == turns;
  }

  lemma NeverSettled(turns: seq<Turn>, deadline: nat, first: nat, interval: nat)
    requires Unstopped(turns, |turns|, deadline, first, interval)
    ensures !TimesOut(turns, deadline, first, interval)
  {
    forall i | 0 <= i < |turns|
      ensures !Stops(turns, i, deadline, first, interval)
    {
      UnstoppedAt(turns, |turns|, i, deadline, first, interval);
    }
  }

  // The loop reports a timeout exactly if the clock cuts in before the stream is settled,
  // and otherwise what the concatenated stream determines.
  method ReadTurns(turns: seq<Turn>, deadline: nat, first: nat, interval: nat) returns (r: Outcome, ghost peak: nat)
    ensures r == TimedOut <==> TimesOut(turns, deadline, first, interval)
    ensures r != TimedOut ==> r == Verdict(Collected(turns))
    ensures peak <= MAX_RESPONSE_FRAME_BYTES
  {
    var response, nextProbe := "", first;
    peak := 0;
    var i := 0;
    while i < |turns|
      invariant 0 <= i <= |turns|
      invariant Collected(turns[..i]) == Stream(response, Open)
      invariant FirstNewline(response) == |response| <= peak <= MAX_RESPONSE_FRAME_BYTES
      invariant nextProbe == NextProbe(turns[..i], first, interval)
      invariant Unstopped(turns, i, deadline, first, interval)
    {
      var turn := turns[i];
      if turn.now >= deadline || (turn.now >= nextProbe && turn.replaced) {
        StoppedInTime(turns, i, deadline, first, interval);
        return TimedOut, peak;
      }
      nextProbe := if turn.now >= nextProbe then turn.now + interval else nextProbe;
      OneTurnMore(turns, i, first, interval);
      var verdict, extended := Receive(response, turn.read);
      if verdict != Waiting {
        SettledInTime(turns, i + 1, deadline, first, interval);
        return verdict, peak;
      }
      response := extended;
      peak := if |response| > peak then |response| else peak;
      i := i + 1;
    }
    NeverSettled(turns, deadline, first, interval);
    assert turns[..|turns|] == turns;
    r := Waiting;
  }

  method ReadFrame(turns: seq<Turn>, deadline: nat, first: nat, interval: nat) returns (r: Outcome, ghost peak: nat)
    // It times out exactly if the deadline passes, or a probe that is due finds another
    // endpoint, before the stream is settled.
    ensures r == TimedOut <==>
              exists i | 0 <= i < |turns| ::
                && (turns[i].now >= deadline || (Probes(turns, i, first, interval) && turns[i].replaced))
                && Says(Waiting, Collected(turns[..i]))
    // A frame is what stands before the first newline, if it is not too long,
    ensures forall b :: r == Frame(b) <==>
                          && r != TimedOut && b + "\n" <= Collected(turns).bytes
                          && '\n' !in b && |b| <= MAX_RESPONSE_FRAME_BYTES
    // and without it the length of what was read, and how the stream ended, decide.
    ensures r == TooLong <==>
              && r != TimedOut && |Collected(turns).bytes| > MAX_RESPONSE_FRAME_BYTES
              && '\n' !in Collected(turns).bytes[..MAX_RESPONSE_FRAME_BYTES + 1]
    ensures var s := Collected(turns);
            '\n' !in s.bytes && |s.bytes| <= MAX_RESPONSE_FRAME_BYTES && r != TimedOut ==>
              r == match s.ending
                   case Open => Waiting
                   case Broken => Unreachable
                   case Closed => if s.bytes == "" then Unreachable else Unterminated
    ensures peak <= MAX_RESPONSE_FRAME_BYTES
  {
    r, peak := ReadTurns(turns, deadline, first, interval);
    VerdictSpelledOut(Collected(turns));
  }

  /* ---- chunks ---- */

  function Joined(chunks: seq<string>): string {
    if chunks == [] then "" else Joined(chunks[..|chunks| - 1]) + chunks[|chunks| - 1]
  }

  // The nonempty reads of a list of turns.
  function Chunks(turns: seq<Turn>): seq<string> {
    if turns == [] then []
    else
      var last := turns[|turns| - 1].read;
      Chunks(turns[..|turns| - 1]) + if last.Data? && last.bytes != "" then [last.bytes] else []
  }

  predicate KeepsOpen(t: Turn) {
    !t.read.Fault? && t.read != Data("")
  }

  // While the stream is open, only the concatenation of its chunks is collected.
  lemma {:induction false} CollectedIsJoined(turns: seq<Turn>)
    requires forall t | t in turns :: KeepsOpen(t)
    ensures Collected(turns) == Stream(Joined(Chunks(turns)), Open)
  {
    if turns != [] {
      var n := |turns| - 1;
      CollectedIsJoined(turns[..n]);
      var before, read := Chunks(turns[..n]), turns[n].read;
      assert KeepsOpen(turns[n]);
      if read.Data? {
        assert read.bytes != "" && (before + [read.bytes])[..|before|] == before;
        assert Joined(before + [read.bytes]) == Joined(before) + read.bytes;
      } else {
        assert before + [] == before;
      }
    }
  }

  // What comes after the end of the stream is not collected.
  lemma {:induction false} CollectedToTheEnd(turns: seq<Turn>, end: Turn, rest: seq<Turn>)
    requires (forall t | t in turns :: KeepsOpen(t)) && !KeepsOpen(end)
    ensures Collected(turns + [end] + rest)
            == Stream(Joined(Chunks(turns)), if end.read.Fault? then Broken else Closed)
  {
    var all := turns + [end] + rest;
    if rest == [] {
      assert all == turns + [end] && all[..|turns|] == turns;
      CollectedIsJoined(turns);
    } else {
      assert all[..|all| - 1] == turns + [end] + rest[..|rest| - 1];
      CollectedToTheEnd(turns, end, rest[..|rest| - 1]);
    }
  }

  // Two streams of the same bytes and the same end get the same verdict, however they
  // are cut and however often the socket was not ready.
  lemma ChunkingDoesNotMatter(a: seq<Turn>, b: seq<Turn>, endA: Turn, endB: Turn)
    requires forall t | t in a + b :: KeepsOpen(t)
    requires Joined(Chunks(a)) == Joined(Chunks(b)) && endA.read == endB.read
    ensures Verdict(Collected(a + [endA])) == Verdict(Collected(b + [endB]))
  {
    CollectedIsJoined(a);
    CollectedIsJoined(b);
    assert (a + [endA])[..|a|] == a && (b + [endB])[..|b|] == b;
  }
}
