/** The service thread when the acceptor hands out fixed-size demarcars (TcpNewConnectionAcceptor.cpp:104-105):
    one thread serves every client, and it waits wherever a ring's mutex was left locked. */
module Blocking {
  import opened Bytes
  import opened Framing
  import opened Receiving
  import opened ServerModel

  /** All clients, and whether the thread waits for a mutex nobody will release. */
  datatype Thread = Thread(clients: map<int, LockedEndpoint>, stuck: bool)

  const IDLE := Thread(map[], false)

  function Serve(kind: Kind, s: Thread, step: Step): Thread
    requires kind.Valid()
  {
    if s.stuck then s
    else match step
      case Accept(fd) =>
        if fd in s.clients then s else s.(clients := s.clients[fd := LockedEndpoint(FRESH, false)])
      case Received(fd, chunk) =>
        if fd !in s.clients then s
        else if s.clients[fd].locked then s.(stuck := true)
        else s.(clients := s.clients[fd := Attempt(kind, s.clients[fd], chunk)])
      case Closed(fd) => s.(clients := s.clients - {fd})
  }

  function ServeAll(kind: Kind, s: Thread, trace: seq<Step>): Thread
    requires kind.Valid()
    decreases |trace|
  {
    if trace == [] then s else ServeAll(kind, Serve(kind, s, trace[0]), trace[1..])
  }

  lemma {:induction false} ServeAllSnoc(kind: Kind, s: Thread, trace: seq<Step>, last: Step)
    requires kind.Valid()
    ensures ServeAll(kind, s, trace + [last]) == Serve(kind, ServeAll(kind, s, trace), last)
    decreases |trace|
  {
    if trace == [] {
      assert [last][1..] == [] && trace + [last] == [last];
      assert ServeAll(kind, Serve(kind, s, last), []) == Serve(kind, s, last);
    } else {
      assert (trace + [last])[1..] == trace[1..] + [last];
      ServeAllSnoc(kind, Serve(kind, s, trace[0]), trace[1..], last);
    }
  }

  lemma {:induction false} StreamSnoc(fd: int, c: Connection, trace: seq<Step>, last: Step)
    ensures StreamOf(fd, c, trace + [last]) == Observe(fd, StreamOf(fd, c, trace), last)
    decreases |trace|
  {
    if trace == [] {
      assert [last][1..] == [] && trace + [last] == [last];
      assert StreamOf(fd, Observe(fd, c, last), []) == Observe(fd, c, last);
    } else {
      assert (trace + [last])[1..] == trace[1..] + [last];
      StreamSnoc(fd, Observe(fd, c, trace[0]), trace[1..], last);
    }
  }

  /** A receive for a client that has received a whole block already, since it was accepted. */
  ghost predicate Fatal(k: nat, trace: seq<Step>, i: nat)
    requires i < |trace|
  {
    trace[i].Received? &&
    var c := StreamOf(trace[i].fd, Absent, trace[..i]);
    c.Open? && |c.bytes| >= k
  }

  /** A client's entry is the parse of its own bytes, and its ring is locked once they complete a block. */
  ghost predicate Tracks(k: nat, s: Thread, fd: int, c: Connection)
    requires FixedSize(k).Valid()
  {
    && (fd in s.clients <==> c.Open?)
    && (c.Open? ==> s.clients[fd] == LockedEndpoint(ParsedAs(FixedSize(k), c.bytes), |c.bytes| >= k))
  }

  lemma NothingParsed(k: nat)
    requires FixedSize(k).Valid()
    ensures ParsedAs(FixedSize(k), []) == FRESH
  {}

  lemma AttemptParses(k: nat, bytes: seq<byte>, chunk: seq<byte>)
    requires FixedSize(k).Valid() && |bytes| < k
    ensures Attempt(FixedSize(k), LockedEndpoint(ParsedAs(FixedSize(k), bytes), false), chunk)
         == LockedEndpoint(ParsedAs(FixedSize(k), bytes + chunk), |bytes + chunk| >= k)
  {
    DrainAppend(FixedSize(k), bytes, chunk);
    assert Drain(FixedSize(k), bytes).rest == bytes;
  }

  lemma ServeTracks(k: nat, s: Thread, step: Step, fd: int, c: Connection)
    requires FixedSize(k).Valid() && !s.stuck && Tracks(k, s, fd, c)
    requires step.Received? && step.fd == fd && c.Open? ==> |c.bytes| < k
    requires step.Received? && step.fd != fd && step.fd in s.clients ==> !s.clients[step.fd].locked
    ensures var after := Serve(FixedSize(k), s, step);
            !after.stuck && Tracks(k, after, fd, Observe(fd, c, step))
  {
    if step.Received? && step.fd == fd && c.Open? {
      AttemptParses(k, c.bytes, step.chunk);
    }
    NothingParsed(k);
  }

  ghost predicate NeverFatal(k: nat, trace: seq<Step>) {
    forall i | 0 <= i < |trace| :: !Fatal(k, trace, i)
  }

  /** Isolation with fixed-size demarcars, exactly: as long as no client that has had a block receives again,
      every client's log and ring are the parse of its own bytes; the first such receive stops the thread. */
  lemma {:induction false} IsolationUntilFatal(k: nat, trace: seq<Step>)
    requires FixedSize(k).Valid()
    ensures var s := ServeAll(FixedSize(k), IDLE, trace);
            && (s.stuck <==> !NeverFatal(k, trace))
            && (!s.stuck ==> forall fd :: Tracks(k, s, fd, StreamOf(fd, Absent, trace)))
    decreases |trace|
  {
    if trace != [] {
      var n := |trace| - 1;
      var early, last := trace[..n], trace[n];
      assert trace == early + [last];
      ServeAllSnoc(FixedSize(k), IDLE, early, last);
      IsolationUntilFatal(k, early);
      FatalSnoc(k, early, last);
      var s := ServeAll(FixedSize(k), IDLE, early);
      if !s.stuck {
        assert Tracks(k, s, last.fd, StreamOf(last.fd, Absent, early));
        if NeverFatal(k, trace) {
          forall fd
            ensures Tracks(k, Serve(FixedSize(k), s, last), fd, StreamOf(fd, Absent, trace))
          {
            StreamSnoc(fd, Absent, early, last);
            ServeTracks(k, s, last, fd, StreamOf(fd, Absent, early));
          }
          ServeTracks(k, s, last, last.fd, StreamOf(last.fd, Absent, early));
        }
      }
    }
  }

  lemma FatalSnoc(k: nat, early: seq<Step>, last: Step)
    ensures var c := StreamOf(last.fd, Absent, early);
            NeverFatal(k, early + [last])
            <==> NeverFatal(k, early) && !(last.Received? && c.Open? && |c.bytes| >= k)
  {
    var trace := early + [last];
    assert trace[..|early|] == early;
    forall i | 0 <= i < |early|
      ensures Fatal(k, trace, i) == Fatal(k, early, i)
    {
      assert trace[..i] == early[..i];
    }
    var c := StreamOf(last.fd, Absent, early);
    assert Fatal(k, trace, |early|) == (last.Received? && c.Open? && |c.bytes| >= k);
    if NeverFatal(k, trace) {
      forall i | 0 <= i < |early|
        ensures !Fatal(k, early, i)
      {
        assert !Fatal(k, trace, i);
      }
    }
  }

  lemma {:induction false} StuckForAll(kind: Kind, s: Thread, trace: seq<Step>)
    requires kind.Valid() && s.stuck
    ensures ServeAll(kind, s, trace) == s
    decreases |trace|
  {
    if trace != [] {
      StuckForAll(kind, s, trace[1..]);
    }
  }

  lemma {:induction false} ServeAllAppend(kind: Kind, s: Thread, first: seq<Step>, rest: seq<Step>)
    requires kind.Valid()
    ensures ServeAll(kind, s, first + rest) == ServeAll(kind, ServeAll(kind, s, first), rest)
    decreases |first|
  {
    if first == [] {
      assert first + rest == rest;
    } else {
      assert (first + rest)[1..] == first[1..] + rest;
      ServeAllAppend(kind, Serve(kind, s, first[0]), first[1..], rest);
    }
  }

  /** From the first such receive on nobody is served: whatever arrives for whom, every client keeps what it had
      just before, which is the parse of the bytes it had received by then. */
  lemma FrozenFromFatal(k: nat, trace: seq<Step>, i: nat, fd: int)
    requires FixedSize(k).Valid() && i < |trace| && Fatal(k, trace, i) && NeverFatal(k, trace[..i])
    ensures var s := ServeAll(FixedSize(k), IDLE, trace);
            && s == ServeAll(FixedSize(k), IDLE, trace[..i]).(stuck := true)
            && Tracks(k, s, fd, StreamOf(fd, Absent, trace[..i]))
  {
    var early, rest := trace[..i], trace[i + 1..];
    var kind := FixedSize(k);
    assert trace == (early + [trace[i]]) + rest;
    IsolationUntilFatal(k, early);
    var s := ServeAll(kind, IDLE, early);
    assert Tracks(k, s, trace[i].fd, StreamOf(trace[i].fd, Absent, early));
    assert Tracks(k, s, fd, StreamOf(fd, Absent, early));
    ServeAllSnoc(kind, IDLE, early, trace[i]);
    ServeAllAppend(kind, IDLE, early + [trace[i]], rest);
    StuckForAll(kind, Serve(kind, s, trace[i]), rest);
  }
}
