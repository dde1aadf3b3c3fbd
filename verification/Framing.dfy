/**
 Content-Length framing (LSP 3.17, Base Protocol): one writer and three readers. The incremental decoder is the one of
 adapters/vscode/src/client.js, the blocking ones are crates/aa-protocol/src/transport.rs and
 crates/aa-ra-client/src/framing.rs. A byte is a character of the string that holds it.
 */
module Framing {
  import opened Wrappers
  import opened Decimal
  import opened Text

  const SEPARATOR := "\r\n\r\n"
  const PREFIX := "Content-Length: "

  /** `write_frame` and `write_message`. */
  function Frame(body: string): string {
    PREFIX + ToDecimal(|body|) + SEPARATOR + body
  }

  function Stream(bodies: seq<string>): string {
    if bodies == [] then "" else Frame(bodies[0]) + Stream(bodies[1..])
  }

  function Concat(chunks: seq<string>): string {
    if chunks == [] then "" else chunks[0] + Concat(chunks[1..])
  }

  // ----- searching -----

  predicate StartsWith(s: string, pat: string) {
    |pat| <= |s| && s[..|pat|] == pat
  }

  /** The first index at or after `i` where the separator starts. */
  function FindSeparator(s: string, i: nat): (r: Option<nat>)
    requires i <= |s|
    ensures r.Some? ==> i <= r.value && r.value + 4 <= |s| && StartsWith(s[r.value..], SEPARATOR)
    ensures r.Some? ==> forall k :: i <= k < r.value ==> !StartsWith(s[k..], SEPARATOR)
    ensures r.None? ==> forall k :: i <= k <= |s| ==> !StartsWith(s[k..], SEPARATOR)
    decreases |s| - i
  {
    if StartsWith(s[i..], SEPARATOR) then Some(i)
    else if i == |s| then None
    else FindSeparator(s, i + 1)
  }

  lemma SeparatorUnderAppend(a: string, b: string, k: nat)
    requires k + 4 <= |a|
    ensures StartsWith((a + b)[k..], SEPARATOR) <==> StartsWith(a[k..], SEPARATOR)
  {
    assert (a + b)[k..][..4] == a[k..][..4];
  }

  /** A separator that has been found stays the first one when more bytes arrive. */
  lemma FindSeparatorStable(a: string, b: string)
    requires FindSeparator(a, 0).Some?
    ensures FindSeparator(a + b, 0) == FindSeparator(a, 0)
  {
    var h := FindSeparator(a, 0).value;
    SeparatorUnderAppend(a, b, h);
    forall k | 0 <= k < h ensures !StartsWith((a + b)[k..], SEPARATOR) {
      SeparatorUnderAppend(a, b, k);
    }
  }

  /** Without a carriage return in front, the separator is found where it was put. */
  lemma FindSeparatorAfter(head: string, rest: string)
    requires '\r' !in head
    ensures FindSeparator(head + SEPARATOR + rest, 0) == Some(|head|)
  {
    var s := head + SEPARATOR + rest;
    assert s[|head|..][..4] == SEPARATOR;
    forall k | 0 <= k < |head| ensures !StartsWith(s[k..], SEPARATOR) {
      assert s[k..][..4][0] == head[k];
      assert head[k] in head;
    }
  }

  // ----- the header of client.js -----

  function Lower(c: char): char {
    if 'A' <= c <= 'Z' then c - 'A' + 'a' else c
  }

  predicate EqIgnoreCase(a: string, b: string) {
    |a| == |b| && forall i :: 0 <= i < |a| ==> Lower(a[i]) == Lower(b[i])
  }

  function SkipSpaces(s: string, i: nat): (j: nat)
    requires i <= |s|
    ensures i <= j <= |s|
    decreases |s| - i
  {
    if i < |s| && IsSpace(s[i]) then SkipSpaces(s, i + 1) else i
  }

  function SkipDigits(s: string, i: nat): (j: nat)
    requires i <= |s|
    ensures i <= j <= |s| && forall k :: i <= k < j ==> IsDigit(s[k])
    decreases |s| - i
  {
    if i < |s| && IsDigit(s[i]) then SkipDigits(s, i + 1) else i
  }

  /** The regular expression `Content-Length:\s*(\d+)`, without case, at one position. */
  function MatchLength(s: string, i: nat): Option<nat>
    requires i <= |s|
  {
    if i + 15 <= |s| && EqIgnoreCase(s[i..i + 15], "content-length:") then
      var j := SkipSpaces(s, i + 15);
      var k := SkipDigits(s, j);
      if j < k then Some(FromDecimal(s[j..k])) else None
    else None
  }

  /** The leftmost match. */
  function FindLength(s: string, i: nat): Option<nat>
    requires i <= |s|
    decreases |s| - i
  {
    var here := MatchLength(s, i);
    if here.Some? || i == |s| then here else FindLength(s, i + 1)
  }

  lemma {:induction false} SkipDigitsAll(s: string, i: nat)
    requires i <= |s| && forall k :: i <= k < |s| ==> IsDigit(s[k])
    ensures SkipDigits(s, i) == |s|
    decreases |s| - i
  {
    if i < |s| {
      SkipDigitsAll(s, i + 1);
    }
  }

  lemma KeyMatches()
    ensures EqIgnoreCase("Content-Length:", "content-length:")
    ensures EqIgnoreCase("Content-Length", "content-length")
  {}

  lemma HeaderCharacters(n: nat)
    ensures '\r' !in PREFIX + ToDecimal(n) && '\n' !in PREFIX + ToDecimal(n)
  {
    var digits := ToDecimal(n);
    assert forall c :: c in digits ==> IsDigit(c);
  }

  lemma LengthBehindPrefix(digits: string)
    requires digits != "" && AllDigits(digits)
    ensures FindLength(PREFIX + digits, 0) == Some(FromDecimal(digits))
  {
    var s := PREFIX + digits;
    assert s[0..15] == "Content-Length:";
    KeyMatches();
    assert SkipSpaces(s, 15) == 16 by {
      assert s[15] == ' ' && s[16] == digits[0] && !IsSpace(digits[0]);
    }
    assert forall k :: 16 <= k < |s| ==> s[k] == digits[k - 16];
    SkipDigitsAll(s, 16);
    assert s[16..|s|] == digits;
  }

  lemma FrameHeaderLength(n: nat)
    ensures FindLength(PREFIX + ToDecimal(n), 0) == Some(n)
  {
    LengthBehindPrefix(ToDecimal(n));
    DecimalRoundTrip(n);
  }

  // ----- the incremental decoder -----

  datatype Step = Wait | Drop(rest: string) | Deliver(body: string, rest: string)

  /** What the drain loop does with a buffer: wait for more, drop a malformed header, or hand out a body. */
  function NextStep(buffer: string): (s: Step)
    ensures !s.Wait? ==> |s.rest| < |buffer|
  {
    var h := FindSeparator(buffer, 0);
    if h.None? then Wait
    else
      var n := FindLength(buffer[..h.value], 0);
      var start := h.value + 4;
      if n.None? then Drop(buffer[start..])
      else if |buffer| < start + n.value then Wait
      else Deliver(buffer[start..start + n.value], buffer[start + n.value..])
  }

  /** All bodies in a buffer, and what is left of it. */
  function Drain(buffer: string): (seq<string>, string)
    decreases |buffer|
  {
    match NextStep(buffer)
    case Wait => ([], buffer)
    case Drop(rest) => Drain(rest)
    case Deliver(body, rest) => var (bodies, left) := Drain(rest); ([body] + bodies, left)
  }

  /** What handling a body comes to: the new state of the client, and whether the loop ends there. */
  datatype Handled<S> = Handled(state: S, stops: bool)

  /** What draining handed out, what it left of the buffer, and the state it led to. */
  datatype Drained<S> = Drained(bodies: seq<string>, left: string, state: S)

  /** One run of the drain loop. */
  function DrainWith<S>(buffer: string, s: S, act: (S, string) -> Handled<S>): Drained<S>
    decreases |buffer|
  {
    match NextStep(buffer)
    case Wait => Drained([], buffer, s)
    case Drop(rest) => DrainWith(rest, s, act)
    case Deliver(body, rest) =>
      var h := act(s, body);
      if h.stops then Drained([body], rest, h.state) else Before(body, DrainWith(rest, h.state, act))
  }

  function Before<S>(body: string, d: Drained<S>): Drained<S> {
    d.(bodies := [body] + d.bodies)
  }

  /** The state after all bodies, whether they end the loop or not. */
  function StateAfter<S>(s: S, bodies: seq<string>, act: (S, string) -> Handled<S>): S
    decreases |bodies|
  {
    if bodies == [] then s else StateAfter(act(s, bodies[0]).state, bodies[1..], act)
  }

  /** A body that ends the loop, in the state reached by then, has another step behind it. */
  ghost predicate Interrupted<S>(buffer: string, s: S, act: (S, string) -> Handled<S>)
    decreases |buffer|
  {
    match NextStep(buffer)
    case Wait => false
    case Drop(rest) => Interrupted(rest, s, act)
    case Deliver(body, rest) =>
      var h := act(s, body);
      (h.stops && !NextStep(rest).Wait?) || Interrupted(rest, h.state, act)
  }

  /** All bodies, in the states they meet: what draining comes to when nothing interrupts it. */
  function DrainedAll<S>(buffer: string, s: S, act: (S, string) -> Handled<S>): Drained<S> {
    Drained(Drain(buffer).0, Drain(buffer).1, StateAfter(s, Drain(buffer).0, act))
  }

  /** A step that can be taken now is the same step when more bytes have arrived. */
  lemma NextStepStable(a: string, b: string)
    requires !NextStep(a).Wait?
    ensures match NextStep(a)
            case Drop(rest) => NextStep(a + b) == Drop(rest + b)
            case Deliver(body, rest) => NextStep(a + b) == Deliver(body, rest + b)
            case Wait => false
  {
    FindSeparatorStable(a, b);
    var h := FindSeparator(a, 0).value;
    AppendSlices(a, b, h, h + 4);
    var n := FindLength(a[..h], 0);
    if n.Some? {
      AppendSlices(a, b, h + 4, h + 4 + n.value);
    }
  }

  lemma AppendSlices(a: string, b: string, i: nat, j: nat)
    requires i <= j <= |a|
    ensures (a + b)[..i] == a[..i] && (a + b)[i..j] == a[i..j] && (a + b)[j..] == a[j..] + b
  {}

  lemma DrainDelivers(buffer: string, body: string, rest: string)
    requires NextStep(buffer) == Deliver(body, rest)
    ensures Drain(buffer) == ([body] + Drain(rest).0, Drain(rest).1)
  {}

  /** Draining, then appending and draining again, is draining everything at once. Any bytes, well framed or not. */
  lemma {:induction false} DrainAppend(a: string, b: string)
    ensures Drain(a + b).0 == Drain(a).0 + Drain(Drain(a).1 + b).0
    ensures Drain(a + b).1 == Drain(Drain(a).1 + b).1
    decreases |a|
  {
    match NextStep(a)
    case Wait =>
    case Drop(rest) =>
      NextStepStable(a, b);
      DrainAppend(rest, b);
    case Deliver(body, rest) =>
      NextStepStable(a, b);
      DrainAppend(rest, b);
      DrainDelivers(a, body, rest);
      DrainDelivers(a + b, body, rest + b);
      PartsAssoc([body], Drain(rest).0, Drain(Drain(rest).1 + b).0);
  }

  lemma DrainWithDelivers<S>(buffer: string, body: string, rest: string, s: S, act: (S, string) -> Handled<S>)
    requires NextStep(buffer) == Deliver(body, rest)
    ensures var h := act(s, body);
            DrainWith(buffer, s, act) ==
            if h.stops then Drained([body], rest, h.state) else Before(body, DrainWith(rest, h.state, act))
    ensures var h := act(s, body);
            Interrupted(buffer, s, act) <==> (h.stops && !NextStep(rest).Wait?) || Interrupted(rest, h.state, act)
    ensures DrainedAll(buffer, s, act) == Before(body, DrainedAll(rest, act(s, body).state, act))
  {
    DrainDelivers(buffer, body, rest);
    assert ([body] + Drain(rest).0)[1..] == Drain(rest).0;
  }

  /** The loop gets through a buffer exactly when no body interrupts it; otherwise it leaves too much. */
  lemma {:induction false} DrainWithExact<S>(buffer: string, s: S, act: (S, string) -> Handled<S>)
    ensures if Interrupted(buffer, s, act) then |DrainWith(buffer, s, act).left| > |Drain(buffer).1|
            else DrainWith(buffer, s, act) == DrainedAll(buffer, s, act)
    decreases |buffer|
  {
    match NextStep(buffer)
    case Wait =>
    case Drop(rest) => DrainWithExact(rest, s, act);
    case Deliver(body, rest) =>
      DrainWithExact(rest, act(s, body).state, act);
      DrainDelivers(buffer, body, rest);
      DrainWithDelivers(buffer, body, rest, s, act);
      DrainLeavesLess(rest);
      assert [body] + [] == [body];
  }

  lemma {:induction false} DrainLeavesLess(buffer: string)
    ensures |Drain(buffer).1| <= |buffer| && (!NextStep(buffer).Wait? ==> |Drain(buffer).1| < |buffer|)
    decreases |buffer|
  {
    match NextStep(buffer)
    case Wait =>
    case Drop(rest) => DrainLeavesLess(rest);
    case Deliver(_, rest) => DrainLeavesLess(rest);
  }

  lemma {:induction false} StateAfterConcat<S>(s: S, a: seq<string>, b: seq<string>, act: (S, string) -> Handled<S>)
    ensures StateAfter(s, a + b, act) == StateAfter(StateAfter(s, a, act), b, act)
    decreases |a|
  {
    if a == [] {
      assert a + b == b;
    } else {
      assert (a + b)[1..] == a[1..] + b;
      StateAfterConcat(act(s, a[0]).state, a[1..], b, act);
    }
  }

  /** What is not interrupted with more bytes behind it is not interrupted without them, nor is what is left then. */
  lemma {:induction false} InterruptedAppend<S>(a: string, b: string, s: S, act: (S, string) -> Handled<S>)
    requires !Interrupted(a + b, s, act)
    ensures !Interrupted(a, s, act)
    ensures !Interrupted(Drain(a).1 + b, StateAfter(s, Drain(a).0, act), act)
    decreases |a|
  {
    match NextStep(a)
    case Wait =>
    case Drop(rest) =>
      NextStepStable(a, b);
      InterruptedAppend(rest, b, s, act);
    case Deliver(body, rest) =>
      NextStepStable(a, b);
      DrainWithDelivers(a, body, rest, s, act);
      DrainWithDelivers(a + b, body, rest + b, s, act);
      InterruptedAppend(rest, b, act(s, body).state, act);
      if !NextStep(rest).Wait? {
        NextStepStable(rest, b);
      }
  }

  /** The decoder fed chunk by chunk. */
  function FeedAll<S>(buffer: string, chunks: seq<string>, s: S, act: (S, string) -> Handled<S>): Drained<S>
    decreases |chunks|
  {
    if chunks == [] then Drained([], buffer, s)
    else
      var now := DrainWith(buffer + chunks[0], s, act);
      var later := FeedAll(now.left, chunks[1..], now.state, act);
      later.(bodies := now.bodies + later.bodies)
  }

  /** Uninterrupted, how the bytes are cut into chunks makes no difference. */
  lemma {:induction false} ChunksDoNotMatter<S>(buffer: string, chunks: seq<string>, s: S, act: (S, string) -> Handled<S>)
    requires NextStep(buffer).Wait? && !Interrupted(buffer + Concat(chunks), s, act)
    ensures FeedAll(buffer, chunks, s, act) == DrainedAll(buffer + Concat(chunks), s, act)
    decreases |chunks|
  {
    if chunks == [] {
      assert buffer + "" == buffer;
    } else {
      var now, later := buffer + chunks[0], Concat(chunks[1..]);
      var t := StateAfter(s, Drain(now).0, act);
      Assoc(buffer, chunks[0], later);
      InterruptedAppend(now, later, s, act);
      DrainWithExact(now, s, act);
      DrainedIsDrained(now);
      ChunksDoNotMatter(Drain(now).1, chunks[1..], t, act);
      DrainAppend(now, later);
      StateAfterConcat(s, Drain(now).0, Drain(Drain(now).1 + later).0, act);
    }
  }

  /** The bytes decode in the same way however they are cut if and only if nothing interrupts the loop on them. */
  lemma ChunksMatterExactly<S>(buffer: string, bytes: string, s: S, act: (S, string) -> Handled<S>)
    requires NextStep(buffer).Wait?
    ensures (forall chunks :: Concat(chunks) == bytes ==> FeedAll(buffer, chunks, s, act) == DrainedAll(buffer + bytes, s, act))
            <==> !Interrupted(buffer + bytes, s, act)
  {
    if !Interrupted(buffer + bytes, s, act) {
      forall chunks | Concat(chunks) == bytes
        ensures FeedAll(buffer, chunks, s, act) == DrainedAll(buffer + bytes, s, act) {
        ChunksDoNotMatter(buffer, chunks, s, act);
      }
    } else {
      OneChunk(buffer, bytes, s, act);
      DrainWithExact(buffer + bytes, s, act);
      assert Concat([bytes]) == bytes && FeedAll(buffer, [bytes], s, act) != DrainedAll(buffer + bytes, s, act);
    }
  }

  lemma OneChunk<S>(buffer: string, bytes: string, s: S, act: (S, string) -> Handled<S>)
    ensures Concat([bytes]) == bytes && FeedAll(buffer, [bytes], s, act) == DrainWith(buffer + bytes, s, act)
  {
    assert [bytes][1..] == [] && bytes + "" == bytes;
    var d := DrainWith(buffer + bytes, s, act);
    assert d.bodies + [] == d.bodies;
  }

  lemma {:induction false} DrainedIsDrained(buffer: string)
    ensures NextStep(Drain(buffer).1).Wait?
    decreases |buffer|
  {
    match NextStep(buffer)
    case Wait =>
    case Drop(rest) => DrainedIsDrained(rest);
    case Deliver(_, rest) => DrainedIsDrained(rest);
  }

  lemma FrameParts(body: string, rest: string)
    ensures var head := PREFIX + ToDecimal(|body|);
            && Frame(body) + rest == head + SEPARATOR + (body + rest)
            && (Frame(body) + rest)[..|head|] == head
            && (Frame(body) + rest)[|head| + 4..] == body + rest
  {
    var head := PREFIX + ToDecimal(|body|);
    assert Frame(body) + rest == head + SEPARATOR + (body + rest);
  }

  lemma FrameStep(body: string, rest: string)
    ensures NextStep(Frame(body) + rest) == Deliver(body, rest)
  {
    var head, s := PREFIX + ToDecimal(|body|), Frame(body) + rest;
    FrameParts(body, rest);
    FrameHeaderLength(|body|);
    HeaderCharacters(|body|);
    FindSeparatorAfter(head, body + rest);
    var start := |head| + 4;
    assert s[start..start + |body|] == s[start..][..|body|] == body;
    assert s[start + |body|..] == s[start..][|body|..] == rest;
  }

  lemma {:induction false} StreamDrains(bodies: seq<string>)
    ensures Drain(Stream(bodies)) == (bodies, "")
  {
    if bodies != [] {
      FrameStep(bodies[0], Stream(bodies[1..]));
      StreamDrains(bodies[1..]);
      DrainDelivers(Stream(bodies), bodies[0], Stream(bodies[1..]));
      assert [bodies[0]] + bodies[1..] == bodies;
    }
  }

  /** Body `i` ends the loop in the state that the ones before it led to. */
  predicate Stops<S>(bodies: seq<string>, i: nat, s: S, act: (S, string) -> Handled<S>)
    requires i < |bodies|
  {
    act(StateAfter(s, bodies[..i], act), bodies[i]).stops
  }

  lemma StopsLater<S>(bodies: seq<string>, i: nat, s: S, act: (S, string) -> Handled<S>)
    requires i + 1 < |bodies|
    ensures Stops(bodies, i + 1, s, act) <==> Stops(bodies[1..], i, act(s, bodies[0]).state, act)
  {
    assert bodies[..i + 1][1..] == bodies[1..][..i];
  }

  /** On a framed stream the loop is interrupted by a stopping body that is not the last. */
  lemma {:induction false} InterruptedStream<S>(bodies: seq<string>, s: S, act: (S, string) -> Handled<S>)
    ensures Interrupted(Stream(bodies), s, act) <==> exists i :: 0 <= i < |bodies| - 1 && Stops(bodies, i, s, act)
  {
    if bodies != [] {
      var rest, t := bodies[1..], act(s, bodies[0]).state;
      FrameStep(bodies[0], Stream(rest));
      DrainWithDelivers(Stream(bodies), bodies[0], Stream(rest), s, act);
      InterruptedStream(rest, t, act);
      assert bodies[..0] == [] && (Stops(bodies, 0, s, act) <==> act(s, bodies[0]).stops);
      if |bodies| > 1 {
        FrameStep(rest[0], Stream(rest[1..]));
      }
      if i :| 0 <= i < |rest| - 1 && Stops(rest, i, t, act) {
        StopsLater(bodies, i, s, act);
      }
      if i :| 0 < i < |bodies| - 1 && Stops(bodies, i, s, act) {
        StopsLater(bodies, i - 1, s, act);
      }
    }
  }

  /**
   Framed bodies come out in order and leave nothing, whatever the chunks were, if and only if none but the last ends the
   loop in the state it meets.
   */
  lemma FramedStreamDecodes<S>(bodies: seq<string>, s: S, act: (S, string) -> Handled<S>)
    ensures (forall chunks :: Concat(chunks) == Stream(bodies) ==>
                                FeedAll("", chunks, s, act) == Drained(bodies, "", StateAfter(s, bodies, act)))
            <==> forall i :: 0 <= i < |bodies| - 1 ==> !Stops(bodies, i, s, act)
  {
    assert "" + Stream(bodies) == Stream(bodies);
    ChunksMatterExactly("", Stream(bodies), s, act);
    StreamDrains(bodies);
    InterruptedStream(bodies, s, act);
  }

  // ----- one header line, as both blocking readers see it -----

  datatype FrameError = Closed | BadHeader | MissingContentLength | HeaderTooLong | UnexpectedEof | NotUtf8

  function IndexOf(s: string, c: char): (r: Option<nat>)
    ensures r.Some? ==> r.value < |s| && s[r.value] == c && c !in s[..r.value]
    ensures r.None? ==> c !in s
  {
    if s == "" then None
    else if s[0] == c then Some(0)
    else
      var later := IndexOf(s[1..], c);
      if later.None? then None else Some(later.value + 1)
  }

  const USIZE_LIMIT := 0x1_0000_0000_0000_0000

  /** `str::parse::<usize>`: an optional plus sign, digits, and no overflow. */
  function ParseUsize(s: string): Option<nat> {
    var digits := if s != "" && s[0] == '+' then s[1..] else s;
    if digits == "" || !AllDigits(digits) || FromDecimal(digits) >= USIZE_LIMIT then None else Some(FromDecimal(digits))
  }

  /** One `name: value` line: sets the length, leaves it, or is malformed. */
  function HeaderLine(line: string, length: Option<nat>): Result<Option<nat>, FrameError> {
    match IndexOf(line, ':')
    case None => Failure(BadHeader)
    case Some(i) =>
      if EqIgnoreCase(line[..i], "content-length") then
        match ParseUsize(Trim(line[i + 1..]))
        case None => Failure(BadHeader)
        case Some(n) => Success(Some(n))
      else Success(length)
  }

  lemma {:induction false} IndexOfPrefix(a: string, c: char, b: string)
    requires c !in a
    ensures IndexOf(a + [c] + b, c) == Some(|a|)
  {
    if a != "" {
      assert (a + [c] + b)[1..] == a[1..] + [c] + b;
      IndexOfPrefix(a[1..], c, b);
    }
  }

  /** The header line of a frame, with or without its line end, gives the length. */
  lemma FrameHeaderLine(n: nat, end: string, length: Option<nat>)
    requires n < USIZE_LIMIT && (end == "" || end == "\r\n")
    ensures HeaderLine(PREFIX + ToDecimal(n) + end, length) == Success(Some(n))
  {
    var digits := ToDecimal(n);
    HeaderParts(digits, end);
    KeyMatches();
    TrimDigits(digits, end);
    DecimalRoundTrip(n);
  }

  lemma HeaderParts(digits: string, end: string)
    ensures var line := PREFIX + digits + end;
            IndexOf(line, ':') == Some(14) && line[..14] == "Content-Length" && line[15..] == " " + digits + end
  {
    var line := PREFIX + digits + end;
    assert line == "Content-Length" + [':'] + (" " + digits + end);
    IndexOfPrefix("Content-Length", ':', " " + digits + end);
  }

  lemma TrimDigits(digits: string, end: string)
    requires digits != "" && AllDigits(digits) && (end == "" || end == "\r\n")
    ensures Trim(" " + digits + end) == digits
  {
    assert (" " + digits + end)[1..] == digits + end;
    assert Tight(digits);
    TrimTight(digits);
    if end == "" {
      assert digits + end == digits;
    } else {
      assert (digits + "\r\n")[..|digits| + 1] == digits + "\r" && (digits + "\r")[..|digits|] == digits;
      assert Trim(digits + "\r\n") == Trim(digits + "\r");
    }
  }

  // ----- UTF-8, section 4 of RFC 3629 -----

  predicate Between(low: int, c: char, high: int) {
    low <= c as int <= high
  }

  /** How long the well-formed sequence at the front is; 0 if there is none. */
  function SequenceLength(s: string): (n: nat)
    ensures n <= |s|
  {
    if s == "" then 0
    else if Between(0x00, s[0], 0x7F) then 1
    else if |s| < 2 then 0
    else if Between(0xC2, s[0], 0xDF) && Between(0x80, s[1], 0xBF) then 2
    else if |s| < 3 || !Between(0x80, s[2], 0xBF) then 0
    else if (s[0] == 0xE0 as char && Between(0xA0, s[1], 0xBF)) || (s[0] == 0xED as char && Between(0x80, s[1], 0x9F)) ||
            (Between(0xE1, s[0], 0xEF) && s[0] != 0xED as char && Between(0x80, s[1], 0xBF)) then 3
    else if |s| < 4 || !Between(0x80, s[3], 0xBF) then 0
    else if (s[0] == 0xF0 as char && Between(0x90, s[1], 0xBF)) || (s[0] == 0xF4 as char && Between(0x80, s[1], 0x8F)) ||
            (Between(0xF1, s[0], 0xF3) && Between(0x80, s[1], 0xBF)) then 4
    else 0
  }

  predicate IsUtf8(s: string)
    decreases |s|
  {
    s == "" || (SequenceLength(s) > 0 && IsUtf8(s[SequenceLength(s)..]))
  }

  lemma {:induction false} AsciiIsUtf8(s: string)
    requires forall i :: 0 <= i < |s| ==> Between(0x00, s[i], 0x7F)
    ensures IsUtf8(s)
  {
    if s != "" {
      AsciiIsUtf8(s[1..]);
    }
  }

  /** So the readers never refuse a written header for its encoding. */
  lemma HeaderIsUtf8(n: nat, end: string)
    requires end == "\r\n" || end == SEPARATOR
    ensures IsUtf8(PREFIX + ToDecimal(n) + end)
  {
    var s, digits := PREFIX + ToDecimal(n) + end, ToDecimal(n);
    forall i | 0 <= i < |s| ensures Between(0x00, s[i], 0x7F) {
      if |PREFIX| <= i < |PREFIX + digits| {
        assert s[i] == digits[i - |PREFIX|] && IsDigit(digits[i - |PREFIX|]);
      }
    }
    AsciiIsUtf8(s);
  }

  // ----- a stream of bytes -----

  class ByteReader {
    var rest: string

    constructor (bytes: string)
      ensures rest == bytes
    {
      rest := bytes;
    }

    /** `BufRead::read_line`: up to and including the next newline, or everything; refused if it is not UTF-8. */
    method ReadLine() returns (r: Result<string, FrameError>)
      modifies this
      ensures var line := FirstLine(old(rest));
              old(rest) == line + rest && r == if IsUtf8(line) then Success(line) else Failure(NotUtf8)
    {
      var line := FirstLine(rest);
      rest := rest[|line|..];
      r := if IsUtf8(line) then Success(line) else Failure(NotUtf8);
    }

    /** `Read::read` into one byte. */
    method ReadByte() returns (b: Option<char>)
      modifies this
      ensures old(rest) == "" ==> b == None && rest == ""
      ensures old(rest) != "" ==> b == Some(old(rest)[0]) && rest == old(rest)[1..]
    {
      if rest == "" {
        return None;
      }
      b := Some(rest[0]);
      rest := rest[1..];
    }

    /** `read_exact`. */
    method ReadExact(n: nat) returns (r: Result<string, FrameError>)
      modifies this
      ensures n <= |old(rest)| ==> r == Success(old(rest)[..n]) && rest == old(rest)[n..]
      ensures n > |old(rest)| ==> r == Failure(UnexpectedEof)
    {
      if n > |rest| {
        rest := "";
        return Failure(UnexpectedEof);
      }
      r := Success(rest[..n]);
      rest := rest[n..];
    }
  }

  function FirstLine(s: string): (line: string)
    ensures |line| <= |s| && s[..|line|] == line && (s != "" ==> line != "")
  {
    match IndexOf(s, '\n')
    case None => s
    case Some(i) => s[..i + 1]
  }

  // ----- read_frame -----

  /** The header lines up to the blank one; the announced length and what follows. */
  function FrameHeader(s: string, length: Option<nat>): Result<(nat, string), FrameError>
    decreases |s|
  {
    if s == "" then Failure(Closed)
    else
      var line := FirstLine(s);
      if !IsUtf8(line) then Failure(NotUtf8)
      else if line == "\r\n" || line == "\n" then
        match length case None => Failure(MissingContentLength) case Some(n) => Success((n, s[|line|..]))
      else
        match HeaderLine(line, length)
        case Failure(e) => Failure(e)
        case Success(l) => FrameHeader(s[|line|..], l)
  }

  function FrameOf(s: string): Result<(string, string), FrameError> {
    match FrameHeader(s, None)
    case Failure(e) => Failure(e)
    case Success((n, rest)) => if n > |rest| then Failure(UnexpectedEof) else Success((rest[..n], rest[n..]))
  }

  method ReadFrame(reader: ByteReader) returns (r: Result<string, FrameError>)
    modifies reader
    ensures match FrameOf(old(reader.rest))
            case Failure(e) => r == Failure(e)
            case Success((body, rest)) => r == Success(body) && reader.rest == rest
  {
    var length: Option<nat> := None;
    while true
      invariant FrameHeader(reader.rest, length) == FrameHeader(old(reader.rest), None)
      decreases |reader.rest|
    {
      ghost var before := reader.rest;
      var read := reader.ReadLine();
      assert before[|FirstLine(before)|..] == reader.rest;
      if read.Failure? {
        return Failure(read.error);
      }
      var line := read.value;
      if line == "" {
        return Failure(Closed);
      }
      if line == "\r\n" || line == "\n" {
        break;
      }
      var parsed := HeaderLine(line, length);
      if parsed.Failure? {
        return Failure(parsed.error);
      }
      length := parsed.value;
    }
    if length.None? {
      return Failure(MissingContentLength);
    }
    r := reader.ReadExact(length.value);
  }

  lemma BlankLineEnds(n: nat, rest: string)
    ensures FrameHeader("\r\n" + rest, Some(n)) == Success((n, rest))
  {
    assert "\r\n" + rest == "\r" + "\n" + rest;
    FirstLineIs("\r", rest);
    AsciiIsUtf8("\r\n");
    assert ("\r\n" + rest)[2..] == rest;
  }

  lemma LengthLine(n: nat, rest: string)
    requires n < USIZE_LIMIT
    ensures FrameHeader(PREFIX + ToDecimal(n) + "\r\n" + rest, None) == FrameHeader(rest, Some(n))
  {
    var head := PREFIX + ToDecimal(n);
    var line, s := head + "\r\n", head + "\r\n" + rest;
    HeaderCharacters(n);
    assert head + "\r" + "\n" == line && head + "\r" + "\n" + rest == s;
    FirstLineIs(head + "\r", rest);
    FrameHeaderLine(n, "\r\n", None);
    HeaderIsUtf8(n, "\r\n");
    assert line[0] == 'C' && s[|line|..] == rest;
  }

  /** Reading back a written frame gives the body and stops right behind it. */
  lemma FrameReadsBack(body: string, rest: string)
    requires |body| < USIZE_LIMIT
    ensures FrameOf(Frame(body) + rest) == Success((body, rest))
  {
    var n := |body|;
    assert Frame(body) + rest == PREFIX + ToDecimal(n) + "\r\n" + ("\r\n" + (body + rest));
    LengthLine(n, "\r\n" + (body + rest));
    BlankLineEnds(n, body + rest);
    assert (body + rest)[..n] == body && (body + rest)[n..] == rest;
  }

  lemma FirstLineIs(a: string, b: string)
    requires '\n' !in a
    ensures FirstLine(a + "\n" + b) == a + "\n"
  {
    IndexOfPrefix(a, '\n', b);
  }

  // ----- read_message -----

  const HEADER_CAP := 8192

  function SplitLines(s: string): seq<string>
    decreases |s|
  {
    match FindCrLf(s, 0)
    case None => [s]
    case Some(i) => [s[..i]] + SplitLines(s[i + 2..])
  }

  function FindCrLf(s: string, i: nat): (r: Option<nat>)
    requires i <= |s|
    ensures r.Some? ==> i <= r.value && r.value + 2 <= |s|
    decreases |s| - i
  {
    if StartsWith(s[i..], "\r\n") then Some(i) else if i == |s| then None else FindCrLf(s, i + 1)
  }

  function HeaderLines(lines: seq<string>, length: Option<nat>): Result<Option<nat>, FrameError> {
    if lines == [] then Success(length)
    else if lines[0] == "" then HeaderLines(lines[1..], length)
    else
      match HeaderLine(lines[0], length)
      case Failure(e) => Failure(e)
      case Success(l) => HeaderLines(lines[1..], l)
  }

  /** The header up to and including the separator, unless the stream ends or the cap is passed first. */
  function MessageHeader(s: string): Result<(string, string), FrameError> {
    match FindSeparator(s, 0)
    case Some(h) => if h + 4 <= HEADER_CAP + 1 then Success((s[..h + 4], s[h + 4..])) else Failure(HeaderTooLong)
    case None => if |s| > HEADER_CAP then Failure(HeaderTooLong) else Failure(Closed)
  }

  function MessageOf(s: string): Result<(string, string), FrameError> {
    match MessageHeader(s)
    case Failure(e) => Failure(e)
    case Success((header, rest)) =>
      if !IsUtf8(header) then Failure(NotUtf8)
      else
        match HeaderLines(SplitLines(header), None)
        case Failure(e) => Failure(e)
        case Success(None) => Failure(MissingContentLength)
        case Success(Some(n)) => if n > |rest| then Failure(UnexpectedEof) else Success((rest[..n], rest[n..]))
  }

  predicate EndsWith(s: string, pat: string) {
    |pat| <= |s| && s[|s| - |pat|..] == pat
  }

  ghost predicate NoSeparatorWithin(s: string, n: nat) {
    forall k :: 0 <= k && k + 4 <= n <= |s| ==> !StartsWith(s[k..], SEPARATOR)
  }

  lemma SeparatorFound(s: string, n: nat)
    requires 4 <= n <= |s| && StartsWith(s[n - 4..], SEPARATOR) && NoSeparatorWithin(s, n - 1)
    ensures FindSeparator(s, 0) == Some(n - 4)
  {
    var r := FindSeparator(s, 0);
    assert r.Some?;
    assert !(r.value < n - 4) && !(n - 4 < r.value);
  }

  lemma OneMoreByte(s: string, n: nat)
    requires n + 1 <= |s| && NoSeparatorWithin(s, n)
    requires n + 1 >= 4 ==> !StartsWith(s[n - 3..], SEPARATOR)
    ensures NoSeparatorWithin(s, n + 1)
  {
    forall k | 0 <= k && k + 4 <= n + 1 ensures !StartsWith(s[k..], SEPARATOR) {
      if k + 4 == n + 1 {
        assert k == n - 3;
      }
    }
  }

  lemma SeparatorNotBefore(s: string, n: nat)
    requires n <= |s| && NoSeparatorWithin(s, n)
    ensures FindSeparator(s, 0).Some? ==> FindSeparator(s, 0).value + 4 > n
  {
  }

  lemma EndIsStart(s: string, buf: string, rest: string)
    requires s == buf + rest
    ensures EndsWith(buf, SEPARATOR) <==> |buf| >= 4 && StartsWith(s[|buf| - 4..], SEPARATOR)
    ensures s[..|buf|] == buf && s[|buf|..] == rest
  {
    if |buf| >= 4 {
      assert s[|buf| - 4..][..4] == buf[|buf| - 4..];
    }
  }

  /** A header read is the one in front of `s`, and what is left is what follows it. */
  ghost predicate HeaderRead(s: string, left: string, r: Result<string, FrameError>) {
    match MessageHeader(s)
    case Failure(e) => r == Failure(e)
    case Success((header, rest)) => r == Success(header) && left == rest
  }

  /** The byte-by-byte loop that looks for the separator. */
  method ReadHeader(reader: ByteReader) returns (r: Result<string, FrameError>)
    modifies reader
    ensures HeaderRead(old(reader.rest), reader.rest, r)
  {
    ghost var s := reader.rest;
    var buf := "";
    while true
      invariant s == buf + reader.rest
      invariant |buf| <= HEADER_CAP
      invariant NoSeparatorWithin(s, |buf|)
      decreases |reader.rest|
    {
      ghost var rest := reader.rest;
      var b := reader.ReadByte();
      if b.None? {
        assert reader.rest == "" && s == buf;
        SeparatorNotBefore(s, |s|);
        r := Failure(Closed);
        assert HeaderRead(s, reader.rest, r);
        return;
      }
      assert rest == [b.value] + reader.rest;
      Assoc(buf, [b.value], reader.rest);
      buf := buf + [b.value];
      EndIsStart(s, buf, reader.rest);
      if EndsWith(buf, SEPARATOR) {
        SeparatorFound(s, |buf|);
        r := Success(buf);
        assert HeaderRead(s, reader.rest, r);
        return;
      }
      OneMoreByte(s, |buf| - 1);
      if |buf| > HEADER_CAP {
        SeparatorNotBefore(s, |buf|);
        r := Failure(HeaderTooLong);
        assert HeaderRead(s, reader.rest, r);
        return;
      }
    }
  }

  method ReadMessage(reader: ByteReader) returns (r: Result<string, FrameError>)
    modifies reader
    ensures match MessageOf(old(reader.rest))
            case Failure(e) => r == Failure(e)
            case Success((body, rest)) => r == Success(body) && reader.rest == rest
  {
    var header := ReadHeader(reader);
    if header.Failure? {
      return Failure(header.error);
    }
    if !IsUtf8(header.value) {
      return Failure(NotUtf8);
    }
    var lines := SplitLines(header.value);
    var length: Option<nat> := None;
    assert lines[0..] == lines;
    for i := 0 to |lines|
      invariant HeaderLines(lines[i..], length) == HeaderLines(lines, None)
    {
      assert lines[i..][1..] == lines[i + 1..];
      if lines[i] == "" {
        continue;
      }
      var parsed := HeaderLine(lines[i], length);
      if parsed.Failure? {
        return Failure(parsed.error);
      }
      length := parsed.value;
    }
    if length.None? {
      return Failure(MissingContentLength);
    }
    r := reader.ReadExact(length.value);
  }

  lemma FindCrLfAfter(head: string, rest: string, i: nat)
    requires '\r' !in head && i <= |head|
    ensures FindCrLf(head + "\r\n" + rest, i) == Some(|head|)
    decreases |head| - i
  {
    var s := head + "\r\n" + rest;
    if i == |head| {
      assert s[i..][..2] == "\r\n";
    } else {
      assert s[i..][..2][0] == head[i];
      assert head[i] in head;
      FindCrLfAfter(head, rest, i + 1);
    }
  }

  lemma HeaderSplits(head: string)
    requires '\r' !in head
    ensures SplitLines(head + SEPARATOR) == [head, "", ""]
  {
    assert head + SEPARATOR == head + "\r\n" + "\r\n";
    FindCrLfAfter(head, "\r\n", 0);
    var s := head + "\r\n" + "\r\n";
    assert s[..|head|] == head && s[|head| + 2..] == "" + "\r\n" + "";
    FindCrLfAfter("", "", 0);
    assert ("" + "\r\n" + "")[2..] == "";
    assert SplitLines("") == [""];
    assert SplitLines("" + "\r\n" + "") == [""] + [""];
    assert SplitLines(s) == [head] + ([""] + [""]);
  }

  lemma LengthFromLines(n: nat)
    requires n < USIZE_LIMIT
    ensures HeaderLines([PREFIX + ToDecimal(n), "", ""], None) == Success(Some(n))
  {
    var head := PREFIX + ToDecimal(n);
    FrameHeaderLine(n, "", None);
    assert head + "" == head && head[0] == 'C';
    assert [head, "", ""][1..] == ["", ""] && ["", ""][1..] == [""] && [""][1..] == [];
    assert HeaderLines(["", ""], Some(n)) == HeaderLines([""], Some(n)) == HeaderLines([], Some(n));
  }

  /** The header of a frame is far below the cap. */
  lemma HeaderBelowCap(n: nat)
    requires n < USIZE_LIMIT
    ensures |PREFIX + ToDecimal(n) + SEPARATOR| <= 40 < HEADER_CAP
  {
    assert USIZE_LIMIT <= Pow10(20) by {
      assert Pow10(2) == 100 && Pow10(4) == 10_000 && Pow10(6) == 1_000_000 && Pow10(8) == 100_000_000;
      assert Pow10(10) == 10_000_000_000 && Pow10(12) == 1_000_000_000_000 && Pow10(14) == 100_000_000_000_000;
      assert Pow10(16) == 10_000_000_000_000_000 && Pow10(18) == 1_000_000_000_000_000_000;
      assert Pow10(20) == 100_000_000_000_000_000_000;
    }
    DecimalLength(n, 20);
  }

  /** The same round trip for `read_message`. */
  lemma MessageReadsBack(body: string, rest: string)
    requires |body| < USIZE_LIMIT
    ensures MessageOf(Frame(body) + rest) == Success((body, rest))
  {
    var n := |body|;
    var head, s := PREFIX + ToDecimal(n), Frame(body) + rest;
    HeaderBelowCap(n);
    FrameParts(body, rest);
    HeaderCharacters(n);
    FindSeparatorAfter(head, body + rest);
    assert MessageHeader(s) == Success((head + SEPARATOR, body + rest)) by {
      assert s[..|head| + 4] == head + SEPARATOR;
    }
    HeaderSplits(head);
    HeaderIsUtf8(n, SEPARATOR);
    LengthFromLines(n);
    assert (body + rest)[..n] == body && (body + rest)[n..] == rest;
  }

  /** Both blocking readers, called once per body, recover the list of bodies that was written. */
  method ReadAll(bodies: seq<string>, useMessage: bool) returns (got: seq<string>)
    requires forall i :: 0 <= i < |bodies| ==> |bodies[i]| < USIZE_LIMIT
    ensures got == bodies
  {
    var reader := new ByteReader(Stream(bodies));
    got := [];
    for i := 0 to |bodies|
      invariant got == bodies[..i] && reader.rest == Stream(bodies[i..])
    {
      var r := ReadOne(reader, bodies[i], Stream(bodies[i + 1..]), useMessage);
      assert bodies[i..][1..] == bodies[i + 1..];
      got := got + [r];
    }
  }

  method ReadOne(reader: ByteReader, ghost body: string, ghost rest: string, useMessage: bool) returns (got: string)
    requires |body| < USIZE_LIMIT && reader.rest == Frame(body) + rest
    modifies reader
    ensures got == body && reader.rest == rest
  {
    FrameReadsBack(body, rest);
    MessageReadsBack(body, rest);
    var r;
    if useMessage {
      r := ReadMessage(reader);
    } else {
      r := ReadFrame(reader);
    }
    got := r.value;
  }
}
