/** One connection as a state machine: whatever pieces the network hands over, the ring limits the
    size of each piece, and what is delivered depends on the byte stream alone. */
module Receiving {
  import opened Bytes
  import opened Framing
  import opened Sequences

  /** The undelivered bytes in the ring and the messages delivered so far. */
  datatype Endpoint = Endpoint(held: seq<byte>, log: seq<seq<byte>>)

  const FRESH := Endpoint([], [])

  ghost predicate Drained(kind: Kind, st: Endpoint)
    requires kind.Valid()
  {
    |st.held| <= DEFAULT_CBC_SIZE && !Ready(kind, st.held)
  }

  function Space(st: Endpoint): int {
    DEFAULT_CBC_SIZE - |st.held|
  }

  /** ProcessMsg of a chunk that fits: store it, then deliver every message it completes. */
  function Receive(kind: Kind, st: Endpoint, chunk: seq<byte>): Endpoint
    requires kind.Valid()
  {
    var d := Drain(kind, st.held + chunk);
    Endpoint(d.rest, st.log + d.messages)
  }

  function Run(kind: Kind, st: Endpoint, chunks: seq<seq<byte>>): Endpoint
    requires kind.Valid()
    decreases |chunks|
  {
    if chunks == [] then st else Run(kind, Receive(kind, st, chunks[0]), chunks[1..])
  }

  /** The runs the service loop can produce: every recv asks for the free space and returns 1..space bytes. */
  ghost predicate Legal(kind: Kind, st: Endpoint, chunks: seq<seq<byte>>)
    requires kind.Valid()
    decreases |chunks|
  {
    chunks == [] ||
    (0 < |chunks[0]| <= Space(st) && Legal(kind, Receive(kind, st, chunks[0]), chunks[1..]))
  }

  lemma ReceiveDrains(kind: Kind, st: Endpoint, chunk: seq<byte>)
    requires kind.Valid() && Drained(kind, st) && |chunk| <= Space(st)
    ensures Drained(kind, Receive(kind, st, chunk))
  {
    DrainRestIsSuffix(kind, st.held + chunk);
  }

  /** The invariant of every legal run: the ring never overflows and never holds a whole message. */
  lemma {:induction false} RunDrains(kind: Kind, st: Endpoint, chunks: seq<seq<byte>>)
    requires kind.Valid() && Drained(kind, st) && Legal(kind, st, chunks)
    ensures Drained(kind, Run(kind, st, chunks))
    decreases |chunks|
  {
    if chunks != [] {
      ReceiveDrains(kind, st, chunks[0]);
      RunDrains(kind, Receive(kind, st, chunks[0]), chunks[1..]);
    }
  }

  /** One more receive at the end of a legal run. */
  lemma {:induction false} RunSnoc(kind: Kind, st: Endpoint, chunks: seq<seq<byte>>, last: seq<byte>)
    requires kind.Valid() && Legal(kind, st, chunks)
    ensures Run(kind, st, chunks + [last]) == Receive(kind, Run(kind, st, chunks), last)
    ensures 0 < |last| <= Space(Run(kind, st, chunks)) ==> Legal(kind, st, chunks + [last])
    decreases |chunks|
  {
    if chunks == [] {
      assert chunks + [last] == [last];
      var next := Receive(kind, st, last);
      assert Run(kind, next, [last][1..]) == next;
    } else {
      assert (chunks + [last])[1..] == chunks[1..] + [last];
      RunSnoc(kind, Receive(kind, st, chunks[0]), chunks[1..], last);
    }
  }

  /** Chunking invariance. After any receives, in any sizes, the log is exactly the complete messages at
      the front of all bytes received and the ring holds exactly the rest. */
  lemma {:induction false} ChunkingInvariance(kind: Kind, st: Endpoint, chunks: seq<seq<byte>>)
    requires kind.Valid() && !Ready(kind, st.held)
    ensures var d := Drain(kind, st.held + Flatten(chunks));
            Run(kind, st, chunks) == Endpoint(d.rest, st.log + d.messages)
    decreases |chunks|
  {
    if chunks == [] {
      assert st.held + Flatten(chunks) == st.held;
      assert st.log + [] == st.log;
    } else {
      var next := Receive(kind, st, chunks[0]);
      DrainRestIsSuffix(kind, st.held + chunks[0]);
      ChunkingInvariance(kind, next, chunks[1..]);
      DrainAppend(kind, st.held + chunks[0], Flatten(chunks[1..]));
      Associate(st.held, chunks[0], Flatten(chunks[1..]));
      Associate(st.log, Drain(kind, st.held + chunks[0]).messages,
                Drain(kind, next.held + Flatten(chunks[1..])).messages);
    }
  }

  lemma NothingReadyYet(kind: Kind)
    requires kind.Valid()
    ensures !Ready(kind, [])
  {}

  /** Two splits of the same stream are indistinguishable to the application. */
  lemma SplitsAgree(kind: Kind, chunks: seq<seq<byte>>, others: seq<seq<byte>>)
    requires kind.Valid() && Flatten(chunks) == Flatten(others)
    ensures Run(kind, FRESH, chunks) == Run(kind, FRESH, others)
  {
    NothingReadyYet(kind);
    ChunkingInvariance(kind, FRESH, chunks);
    ChunkingInvariance(kind, FRESH, others);
  }

  /** Round trip: whatever a peer encodes arrives, in order, and leaves the ring empty. */
  lemma RoundTrip(kind: Kind, messages: seq<seq<byte>>, chunks: seq<seq<byte>>)
    requires kind.Valid() && AllSendable(kind, messages)
    requires Flatten(chunks) == EncodeAll(kind, messages)
    ensures Run(kind, FRESH, chunks) == Endpoint([], messages)
  {
    NothingReadyYet(kind);
    ChunkingInvariance(kind, FRESH, chunks);
    ParseIsUnique(kind, messages, []);
    assert [] + Flatten(chunks) == EncodeAll(kind, messages) + [];
    assert [] + messages == messages;
  }

  // ---- back-pressure ----

  /** The header at the front of the ring announces more than the ring can ever hold. */
  predicate Oversized(s: seq<byte>) {
    |s| >= HDR_MSG_SIZE && HDR_MSG_SIZE + PayloadLength(s) > DEFAULT_CBC_SIZE
  }

  /** Back-pressure (no free space after a drain) is exactly a full ring behind an oversized header. */
  lemma StallDichotomy(st: Endpoint)
    requires Drained(VariableSize, st)
    ensures Space(st) == 0 <==> |st.held| == DEFAULT_CBC_SIZE && Oversized(st.held)
    ensures !Oversized(st.held) ==> Space(st) > 0
  {}

  /** Fixed-size framing is never back-pressured, for exactly the block sizes the ring can hold. */
  lemma FixedSizeNeverStalls(k: nat)
    requires FixedSize(k).Valid()
    ensures (forall st | Drained(FixedSize(k), st) :: Space(st) > 0) <==> k <= DEFAULT_CBC_SIZE
  {
    if k > DEFAULT_CBC_SIZE {
      var full := Endpoint(seq(DEFAULT_CBC_SIZE, _ => 0), []);
      assert Drained(FixedSize(k), full) && Space(full) == 0;
    }
  }

  /** Draining that gives up at the first message too long for the ring. */
  function Deliver(kind: Kind, s: seq<byte>): Cut
    requires kind.Valid()
    decreases |s|
  {
    if Ready(kind, s) && WireLength(kind, s) <= DEFAULT_CBC_SIZE then
      var d := Deliver(kind, s[WireLength(kind, s)..]);
      Cut([Message(kind, s)] + d.messages, d.rest)
    else Cut([], s)
  }

  lemma {:induction false} DeliverIsDrainInTheRing(kind: Kind, s: seq<byte>)
    requires kind.Valid() && |s| <= DEFAULT_CBC_SIZE
    ensures Deliver(kind, s) == Drain(kind, s)
    decreases |s|
  {
    if Ready(kind, s) {
      DeliverIsDrainInTheRing(kind, s[WireLength(kind, s)..]);
    }
  }

  lemma {:induction false} DeliverAppend(kind: Kind, s: seq<byte>, t: seq<byte>)
    requires kind.Valid()
    ensures var d := Deliver(kind, s);
            var e := Deliver(kind, d.rest + t);
            Deliver(kind, s + t) == Cut(d.messages + e.messages, e.rest)
    decreases |s|
  {
    if Ready(kind, s) && WireLength(kind, s) <= DEFAULT_CBC_SIZE {
      var n := WireLength(kind, s);
      ReadyIsStable(kind, s, t);
      assert (s + t)[n..] == s[n..] + t;
      DeliverAppend(kind, s[n..], t);
      var d := Deliver(kind, s[n..]);
      Associate([Message(kind, s)], d.messages, Deliver(kind, d.rest + t).messages);
    } else {
      assert [] + Deliver(kind, s + t).messages == Deliver(kind, s + t).messages;
    }
  }

  /** Where a connection ends up once the network has offered `pending`, however it is cut. */
  function Forecast(kind: Kind, st: Endpoint, pending: seq<byte>): Endpoint
    requires kind.Valid()
  {
    var d := Deliver(kind, st.held + pending);
    Endpoint(d.rest, st.log + d.messages)
  }

  lemma ReceiveKeepsForecast(kind: Kind, st: Endpoint, chunk: seq<byte>, pending: seq<byte>)
    requires kind.Valid() && Drained(kind, st) && |chunk| <= Space(st)
    ensures Forecast(kind, Receive(kind, st, chunk), pending) == Forecast(kind, st, chunk + pending)
  {
    var s := st.held + chunk;
    DeliverIsDrainInTheRing(kind, s);
    DeliverAppend(kind, s, pending);
    Associate(st.held, chunk, pending);
    Associate(st.log, Drain(kind, s).messages, Deliver(kind, Drain(kind, s).rest + pending).messages);
  }

  /** Nothing further can be delivered when nothing is pending, or when the ring is full. */
  lemma ForecastWhenDone(kind: Kind, st: Endpoint, pending: seq<byte>)
    requires kind.Valid() && Drained(kind, st) && (pending == [] || Space(st) == 0)
    ensures Forecast(kind, st, pending) == Endpoint(st.held + pending, st.log)
  {
    var s := st.held + pending;
    if pending == [] {
      assert s == st.held;
    }
    assert st.log + [] == st.log;
  }

  /** The receive loop run to its end. Whatever sizes recv returned, the log is what `Deliver` cuts from all
      offered bytes, ring and socket together hold the rest, and the socket was emptied exactly when that
      rest fits the ring. */
  lemma {:induction false} GreedyOutcome(kind: Kind, st: Endpoint, chunks: seq<seq<byte>>, left: seq<byte>)
    requires kind.Valid() && Drained(kind, st) && Legal(kind, st, chunks)
    requires left == [] || Space(Run(kind, st, chunks)) == 0
    ensures var end := Run(kind, st, chunks);
            var all := Deliver(kind, st.held + (Flatten(chunks) + left));
            && end.log == st.log + all.messages
            && end.held + left == all.rest
            && (left == [] <==> |all.rest| <= DEFAULT_CBC_SIZE)
    decreases |chunks|
  {
    RunDrains(kind, st, chunks);
    GreedyForecast(kind, st, chunks, left);
  }

  lemma {:induction false} GreedyForecast(kind: Kind, st: Endpoint, chunks: seq<seq<byte>>, left: seq<byte>)
    requires kind.Valid() && Drained(kind, st) && Legal(kind, st, chunks)
    requires left == [] || Space(Run(kind, st, chunks)) == 0
    ensures Forecast(kind, st, Flatten(chunks) + left)
         == Endpoint(Run(kind, st, chunks).held + left, Run(kind, st, chunks).log)
    decreases |chunks|
  {
    if chunks == [] {
      assert Flatten(chunks) + left == left;
      ForecastWhenDone(kind, st, left);
    } else {
      var next := Receive(kind, st, chunks[0]);
      ReceiveDrains(kind, st, chunks[0]);
      GreedyForecast(kind, next, chunks[1..], left);
      ReceiveKeepsForecast(kind, st, chunks[0], Flatten(chunks[1..]) + left);
      Associate(chunks[0], Flatten(chunks[1..]), left);
    }
  }

  /** No message of the stream, finished or announced, is too long for the ring. */
  ghost predicate FitsRing(kind: Kind, s: seq<byte>)
    requires kind.Valid()
  {
    var d := Drain(kind, s);
    && (forall m | m in d.messages :: Sendable(kind, m) && |Encode(kind, m)| <= DEFAULT_CBC_SIZE)
    && match kind
       case VariableSize => !Oversized(d.rest)
       case FixedSize(k) => k <= DEFAULT_CBC_SIZE
  }

  lemma {:induction false} FittingStreamIsDelivered(kind: Kind, s: seq<byte>)
    requires kind.Valid() && FitsRing(kind, s)
    ensures Deliver(kind, s) == Drain(kind, s) && |Drain(kind, s).rest| < DEFAULT_CBC_SIZE
    decreases |s|
  {
    if Ready(kind, s) {
      var n := WireLength(kind, s);
      var d := Drain(kind, s);
      ReadyIsEncoded(kind, s);
      assert d.messages[0] == Message(kind, s);
      assert d.messages[1..] == Drain(kind, s[n..]).messages;
      FittingStreamIsDelivered(kind, s[n..]);
    }
  }

  /** When every message fits, no schedule of receives ever stalls: the loop empties the socket and the log
      is the whole parse of the stream. */
  lemma FittingStreamsNeverStall(kind: Kind, chunks: seq<seq<byte>>, left: seq<byte>)
    requires kind.Valid() && Legal(kind, FRESH, chunks)
    requires left == [] || Space(Run(kind, FRESH, chunks)) == 0
    requires FitsRing(kind, Flatten(chunks) + left)
    ensures left == []
    ensures Run(kind, FRESH, chunks).log == Drain(kind, Flatten(chunks)).messages
  {
    NothingReadyYet(kind);
    GreedyOutcome(kind, FRESH, chunks, left);
    FittingStreamIsDelivered(kind, Flatten(chunks) + left);
    assert [] + (Flatten(chunks) + left) == Flatten(chunks) + left;
    if left == [] {
      assert Flatten(chunks) + left == Flatten(chunks);
    }
  }

  /** Once an oversized header is at the front of the ring, no later input is ever delivered. */
  lemma {:induction false} OversizedHeaderIsForever(st: Endpoint, chunks: seq<seq<byte>>)
    requires Drained(VariableSize, st) && Oversized(st.held) && Legal(VariableSize, st, chunks)
    ensures Run(VariableSize, st, chunks) == Endpoint(st.held + Flatten(chunks), st.log)
    decreases |chunks|
  {
    if chunks == [] {
      assert st.held + Flatten(chunks) == st.held;
    } else {
      var next := Receive(VariableSize, st, chunks[0]);
      assert next == Endpoint(st.held + chunks[0], st.log) by { assert st.log + [] == st.log; }
      OversizedHeaderIsForever(next, chunks[1..]);
      Associate(st.held, chunks[0], Flatten(chunks[1..]));
    }
  }

  // ---- a message larger than the free space ----

  /** ProcessMsg of any message: what does not fit is dropped, and then nothing is drained. */
  function Process(kind: Kind, st: Endpoint, message: seq<byte>): Endpoint
    requires kind.Valid() && |st.held| <= DEFAULT_CBC_SIZE
  {
    if |message| <= Space(st) then Receive(kind, st, message)
    else Endpoint(st.held + message[..Space(st)], st.log)
  }

  /** An over-long message leaves a full ring undrained, and every later message is then dropped whole. */
  lemma OverflowIsForever(kind: Kind, st: Endpoint, message: seq<byte>, later: seq<byte>)
    requires kind.Valid() && Space(st) >= 0 && |message| > Space(st) && later != []
    ensures var full := Process(kind, st, message);
            && full.held == st.held + message[..256 - |st.held|] && |full.held| == 256
            && full.log == st.log && Process(kind, full, later) == full
  {
    var full := Process(kind, st, message);
    assert full.held + later[..0] == full.held;
  }

  // ---- the mutex the last fixed-size read leaves locked ----

  datatype LockedEndpoint = LockedEndpoint(st: Endpoint, locked: bool)

  /** The ring and its mutex after a read. */
  datatype Reading = Reading(held: seq<byte>, locked: bool)

  /** A read takes as many bytes as it is asked for, or, when there are fewer, none and keeps the mutex. */
  function ReadRing(held: seq<byte>, size: nat, remove: bool): Reading {
    if size > |held| then Reading(held, true) else Reading(if remove then held[size..] else held, false)
  }

  /** The reads of the variable-size drain: the header is peeked at, and read with its payload when both are
      there. None of them fails. */
  function ReadFrames(held: seq<byte>): (r: Reading)
    ensures !r.locked && r.held == Drain(VariableSize, held).rest
    decreases |held|
  {
    if |held| < HDR_MSG_SIZE then Reading(held, false)
    else
      var peeked := ReadRing(held, HDR_MSG_SIZE, false);
      if peeked.locked || |held| < HDR_MSG_SIZE + PayloadLength(held) then peeked
      else
        var header := ReadRing(held, HDR_MSG_SIZE, true);
        if header.locked then header
        else
          var payload := ReadRing(header.held, PayloadLength(held), true);
          assert payload.held == held[WireLength(VariableSize, held)..];
          if payload.locked then payload else ReadFrames(payload.held)
  }

  /** The reads of the fixed-size drain: blocks are read until a read fails. */
  function ReadBlocks(k: nat, held: seq<byte>): (r: Reading)
    requires FixedSize(k).Valid()
    ensures r.locked && r.held == Drain(FixedSize(k), held).rest
    decreases |held|
  {
    var block := ReadRing(held, k, true);
    if block.locked then block else ReadBlocks(k, block.held)
  }

  /** All reads of a drain. The mutex is left held exactly when the fixed-size loop was entered. */
  function DrainReads(kind: Kind, held: seq<byte>): (r: Reading)
    requires kind.Valid()
    ensures r.held == Drain(kind, held).rest
    ensures r.locked <==> kind.FixedSize? && Ready(kind, held)
  {
    match kind
    case VariableSize => ReadFrames(held)
    case FixedSize(k) => if Ready(kind, held) then ReadBlocks(k, held) else Reading(held, false)
  }

  /** Receiving with the ring's mutex: a writer that finds it held waits for ever, and the drain leaves it as its
      last read does. */
  function Attempt(kind: Kind, e: LockedEndpoint, chunk: seq<byte>): LockedEndpoint
    requires kind.Valid()
  {
    if e.locked && chunk != [] then e
    else LockedEndpoint(Receive(kind, e.st, chunk), DrainReads(kind, e.st.held + chunk).locked)
  }

  function RunLocked(kind: Kind, e: LockedEndpoint, chunks: seq<seq<byte>>): LockedEndpoint
    requires kind.Valid()
    decreases |chunks|
  {
    if chunks == [] then e else RunLocked(kind, Attempt(kind, e, chunks[0]), chunks[1..])
  }

  ghost predicate NonEmpty(chunks: seq<seq<byte>>) {
    forall i | 0 <= i < |chunks| :: chunks[i] != []
  }

  /** On the variable-size path the mutex changes nothing. */
  lemma {:induction false} VariableSizeNeverBlocks(st: Endpoint, chunks: seq<seq<byte>>)
    ensures RunLocked(VariableSize, LockedEndpoint(st, false), chunks)
         == LockedEndpoint(Run(VariableSize, st, chunks), false)
    decreases |chunks|
  {
    if chunks != [] {
      VariableSizeNeverBlocks(Receive(VariableSize, st, chunks[0]), chunks[1..]);
    }
  }

  lemma {:induction false} BlockedStaysBlocked(kind: Kind, e: LockedEndpoint, chunks: seq<seq<byte>>)
    requires kind.Valid() && e.locked && NonEmpty(chunks)
    ensures RunLocked(kind, e, chunks) == e
    decreases |chunks|
  {
    if chunks != [] {
      BlockedStaysBlocked(kind, e, chunks[1..]);
    }
  }

  lemma InputIsVisible(kind: Kind, st: Endpoint, chunks: seq<seq<byte>>)
    requires kind.Valid() && !Ready(kind, st.held) && chunks != [] && NonEmpty(chunks)
    ensures Run(kind, st, chunks) != st
  {
    ChunkingInvariance(kind, st, chunks);
    assert |Flatten(chunks)| >= |chunks[0]|;
    var d := Drain(kind, st.held + Flatten(chunks));
    if d.messages == [] {
      assert d.rest == st.held + Flatten(chunks);
    } else {
      assert |st.log + d.messages| > |st.log|;
    }
  }

  /** With the mutex as the code leaves it, a fixed-size connection behaves as framing promises exactly when
      no receive follows the one that completes the first block. */
  lemma {:induction false} FixedSizeBlocksAfterFirstFlush(k: nat, st: Endpoint, chunks: seq<seq<byte>>)
    requires FixedSize(k).Valid() && !Ready(FixedSize(k), st.held) && NonEmpty(chunks)
    ensures RunLocked(FixedSize(k), LockedEndpoint(st, false), chunks).st == Run(FixedSize(k), st, chunks)
        <==> chunks == [] || |st.held| + |Flatten(chunks[..|chunks| - 1])| < k
    decreases |chunks|
  {
    var kind := FixedSize(k);
    if chunks != [] {
      var c, rest := chunks[0], chunks[1..];
      var next := Attempt(kind, LockedEndpoint(st, false), c);
      DrainRestIsSuffix(kind, st.held + c);
      if rest == [] {
        assert RunLocked(kind, next, rest) == next;
        assert Flatten(chunks[..0]) == [];
      } else {
        var early := chunks[..|chunks| - 1];
        assert early[0] == c && early[1..] == rest[..|rest| - 1];
        assert |Flatten(early)| == |c| + |Flatten(rest[..|rest| - 1])|;
        if next.locked {
          BlockedStaysBlocked(kind, next, rest);
          InputIsVisible(kind, next.st, rest);
        } else {
          assert next.st.held == st.held + c;
          FixedSizeBlocksAfterFirstFlush(k, next.st, rest);
        }
      }
    }
  }

  /** Blocks of one byte, two one-byte receives: the second byte is never stored. */
  lemma FixedSizeBlocksOnTheSecondByte()
    ensures var chunks := [[7], [8]];
            RunLocked(FixedSize(1), LockedEndpoint(FRESH, false), chunks).st != Run(FixedSize(1), FRESH, chunks)
  {
    var chunks: seq<seq<byte>> := [[7], [8]];
    assert chunks[..1] == [[7]];
    assert Flatten([[7 as byte]]) == [7] + Flatten([[7 as byte]][1..]);
    FixedSizeBlocksAfterFirstFlush(1, FRESH, chunks);
  }
}
