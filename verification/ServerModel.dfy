/** The service manager's clients as one state machine over connect, receive and close events. */
module ServerModel {
  import opened Bytes
  import opened Framing
  import opened Receiving
  import opened Sequences

  datatype Step =
    | Accept(fd: int)
    | Received(fd: int, chunk: seq<byte>)
    | Closed(fd: int)

  type Server = map<int, Endpoint>

  /** An event for a descriptor that is not (or no longer) registered is ignored. */
  function Apply(s: Server, step: Step): Server {
    match step
    case Accept(fd) => if fd in s then s else s[fd := FRESH]
    case Received(fd, chunk) => if fd in s then s[fd := Receive(VariableSize, s[fd], chunk)] else s
    case Closed(fd) => s - {fd}
  }

  function RunServer(s: Server, trace: seq<Step>): Server
    decreases |trace|
  {
    if trace == [] then s else RunServer(Apply(s, trace[0]), trace[1..])
  }

  lemma {:induction false} RunServerAppend(s: Server, first: seq<Step>, rest: seq<Step>)
    ensures RunServer(s, first + rest) == RunServer(RunServer(s, first), rest)
    decreases |first|
  {
    if first == [] {
      assert first + rest == rest;
    } else {
      assert (first + rest)[1..] == first[1..] + rest;
      RunServerAppend(Apply(s, first[0]), first[1..], rest);
    }
  }

  datatype Connection = Absent | Open(bytes: seq<byte>)

  /** What one event means to one descriptor; no other client's events matter. */
  function Observe(fd: int, c: Connection, step: Step): Connection {
    match step
    case Accept(f) => if f == fd && c.Absent? then Open([]) else c
    case Received(f, chunk) => if f == fd && c.Open? then Open(c.bytes + chunk) else c
    case Closed(f) => if f == fd then Absent else c
  }

  /** The bytes one descriptor has received since it was last accepted. */
  function StreamOf(fd: int, c: Connection, trace: seq<Step>): Connection
    decreases |trace|
  {
    if trace == [] then c else StreamOf(fd, Observe(fd, c, trace[0]), trace[1..])
  }

  /** The endpoint a demarcar must have brought about after receiving exactly `bytes`. */
  function ParsedAs(kind: Kind, bytes: seq<byte>): Endpoint
    requires kind.Valid()
  {
    Endpoint(Drain(kind, bytes).rest, Drain(kind, bytes).messages)
  }

  /** The endpoint a client must have after receiving exactly `bytes`. */
  function Parsed(bytes: seq<byte>): Endpoint {
    ParsedAs(VariableSize, bytes)
  }

  ghost predicate Agrees(s: Server, fd: int, c: Connection) {
    && (fd in s <==> c.Open?)
    && (fd in s ==> s[fd] == Parsed(c.bytes))
  }

  lemma ParsedStep(bytes: seq<byte>, chunk: seq<byte>)
    ensures Receive(VariableSize, Parsed(bytes), chunk) == Parsed(bytes + chunk)
  {
    DrainAppend(VariableSize, bytes, chunk);
  }

  lemma StepIsolation(s: Server, fd: int, c: Connection, step: Step)
    requires Agrees(s, fd, c)
    ensures Agrees(Apply(s, step), fd, Observe(fd, c, step))
  {
    if step.Received? && step.fd == fd && c.Open? {
      ParsedStep(c.bytes, step.chunk);
    }
  }

  /** Client isolation, over every interleaving: a client's log and ring are the parse of its own bytes. */
  lemma {:induction false} Isolation(s: Server, fd: int, sofar: Connection, trace: seq<Step>)
    requires Agrees(s, fd, sofar)
    ensures Agrees(RunServer(s, trace), fd, StreamOf(fd, sofar, trace))
    decreases |trace|
  {
    if trace != [] {
      StepIsolation(s, fd, sofar, trace[0]);
      Isolation(Apply(s, trace[0]), fd, Observe(fd, sofar, trace[0]), trace[1..]);
    }
  }

  /** After an accept, and until the next close, a descriptor's stream is the bytes received on it. */
  lemma {:induction false} StreamIsWhatCame(fd: int, bytes: seq<byte>, trace: seq<Step>)
    requires forall step | step in trace && step.fd == fd :: !step.Closed?
    ensures StreamOf(fd, Open(bytes), trace) == Open(bytes + ReceivedBytes(fd, trace))
    decreases |trace|
  {
    if trace == [] {
      assert bytes + [] == bytes;
    } else {
      var own := if trace[0].Received? && trace[0].fd == fd then trace[0].chunk else [];
      assert trace[0] in trace;
      assert bytes + [] == bytes;
      assert Observe(fd, Open(bytes), trace[0]) == Open(bytes + own);
      StreamIsWhatCame(fd, bytes + own, trace[1..]);
      Associate(bytes, own, ReceivedBytes(fd, trace[1..]));
    }
  }

  /** Before an accept there is none, and after a close there is none again. */
  lemma StreamStartsAndEnds(fd: int, c: Connection, trace: seq<Step>)
    requires trace != []
    ensures trace[0] == Accept(fd) && c == Absent ==> StreamOf(fd, c, trace) == StreamOf(fd, Open([]), trace[1..])
    ensures trace[0] == Closed(fd) ==> StreamOf(fd, c, trace) == StreamOf(fd, Absent, trace[1..])
    ensures c == Absent && trace[0] != Accept(fd) ==> StreamOf(fd, c, trace) == StreamOf(fd, Absent, trace[1..])
  {}

  /** The events of one descriptor. */
  function Only(fd: int, trace: seq<Step>): seq<Step> {
    if trace == [] then []
    else (if trace[0].fd == fd then [trace[0]] else []) + Only(fd, trace[1..])
  }

  lemma {:induction false} StreamNeedsOnlyItsOwn(fd: int, sofar: Connection, trace: seq<Step>)
    ensures StreamOf(fd, sofar, Only(fd, trace)) == StreamOf(fd, sofar, trace)
    decreases |trace|
  {
    if trace != [] {
      var rest := Only(fd, trace[1..]);
      if trace[0].fd == fd {
        assert ([trace[0]] + rest)[1..] == rest;
        StreamNeedsOnlyItsOwn(fd, Observe(fd, sofar, trace[0]), trace[1..]);
      } else {
        assert [] + rest == rest;
        StreamNeedsOnlyItsOwn(fd, sofar, trace[1..]);
      }
    }
  }

  /** Deleting every other client's events from a run changes nothing a client can observe. */
  lemma OthersAreInvisible(fd: int, trace: seq<Step>)
    ensures var all, own := RunServer(map[], trace), RunServer(map[], Only(fd, trace));
            (fd in all <==> fd in own) && (fd in all ==> all[fd] == own[fd])
  {
    Isolation(map[], fd, Absent, trace);
    Isolation(map[], fd, Absent, Only(fd, trace));
    StreamNeedsOnlyItsOwn(fd, Absent, trace);
  }

  /** One readiness event seen by the model: the pieces received, then possibly the close. */
  function EventTrace(fd: int, chunks: seq<seq<byte>>, gone: bool): seq<Step> {
    if chunks == [] then (if gone then [Closed(fd)] else [])
    else [Received(fd, chunks[0])] + EventTrace(fd, chunks[1..], gone)
  }

  /** An event run changes its own client's entry, by that client's receives, and no other entry. */
  lemma {:induction false} EventTraceEffect(s: Server, fd: int, chunks: seq<seq<byte>>, gone: bool)
    requires fd in s
    ensures RunServer(s, EventTrace(fd, chunks, gone))
         == var after := s[fd := Run(VariableSize, s[fd], chunks)];
            if gone then Apply(after, Closed(fd)) else after
    decreases |chunks|
  {
    var trace := EventTrace(fd, chunks, gone);
    if chunks == [] {
      assert s[fd := s[fd]] == s;
      if gone {
        assert RunServer(Apply(s, Closed(fd)), trace[1..]) == Apply(s, Closed(fd));
      }
    } else {
      var next := Apply(s, trace[0]);
      assert trace[1..] == EventTrace(fd, chunks[1..], gone);
      EventTraceEffect(next, fd, chunks[1..], gone);
      var end := Run(VariableSize, s[fd], chunks);
      assert next[fd := end] == s[fd := end];
    }
  }

  /** The bytes one descriptor receives in a run, whether or not it is registered. */
  function ReceivedBytes(fd: int, trace: seq<Step>): seq<byte> {
    if trace == [] then []
    else (if trace[0].Received? && trace[0].fd == fd then trace[0].chunk else []) + ReceivedBytes(fd, trace[1..])
  }

  lemma {:induction false} ReceivedAppend(fd: int, first: seq<Step>, rest: seq<Step>)
    ensures ReceivedBytes(fd, first + rest) == ReceivedBytes(fd, first) + ReceivedBytes(fd, rest)
    decreases |first|
  {
    if first == [] {
      assert first + rest == rest;
    } else {
      assert (first + rest)[1..] == first[1..] + rest;
      ReceivedAppend(fd, first[1..], rest);
      var own := if first[0].Received? && first[0].fd == fd then first[0].chunk else [];
      Associate(own, ReceivedBytes(fd, first[1..]), ReceivedBytes(fd, rest));
    }
  }

  lemma {:induction false} NothingReceived(fd: int, trace: seq<Step>)
    requires forall step | step in trace :: step.fd != fd
    ensures ReceivedBytes(fd, trace) == []
    decreases |trace|
  {
    if trace != [] {
      NothingReceived(fd, trace[1..]);
    }
  }

  /** An event's steps are its own client's, and what they receive are the pieces, in order. */
  lemma {:induction false} EventTraceIsOwn(fd: int, chunks: seq<seq<byte>>, gone: bool)
    ensures forall step | step in EventTrace(fd, chunks, gone) :: step.fd == fd
    ensures ReceivedBytes(fd, EventTrace(fd, chunks, gone)) == Flatten(chunks)
    decreases |chunks|
  {
    if chunks != [] {
      EventTraceIsOwn(fd, chunks[1..], gone);
      assert EventTrace(fd, chunks, gone)[1..] == EventTrace(fd, chunks[1..], gone);
    }
  }
}
