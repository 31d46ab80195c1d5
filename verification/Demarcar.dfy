/** The message demarcars (TcpMsgDemarcar.cpp and its two subclasses): the ring, the scratch buffer and
    the loops that fill the one and drain it through the other. */
module Demarcar {
  import opened Arithmetic
  import opened Bytes
  import opened ByteRing
  import opened Framing
  import opened Receiving
  import opened Sequences

  class TcpMsgDemarcar {
    const kind: Kind
    const bcb: ByteCircularBuffer
    const buffer: array<byte>
    /** Every `client_msg_recvd` call made so far, as the bytes handed over. */
    ghost var delivered: seq<seq<byte>>

    ghost predicate Valid()
      reads this, bcb, bcb.buffer
    {
      && kind.Valid()
      && bcb.Valid()
      && bcb.bufferSize == DEFAULT_CBC_SIZE
      && buffer.Length == MAX_CLIENT_BUFFER_SIZE
      && buffer != bcb.buffer
    }

    ghost function Repr(): set<object> {
      {this, bcb, bcb.buffer, buffer}
    }

    ghost function Abs(): Endpoint
      requires Valid()
      reads this, bcb, bcb.buffer
    {
      Endpoint(bcb.Contents(), delivered)
    }

    constructor (kind: Kind)
      requires kind.Valid()
      ensures Valid() && fresh(Repr()) && this.kind == kind
      ensures Abs() == FRESH && !bcb.locked
    {
      this.kind := kind;
      bcb := new ByteCircularBuffer(DEFAULT_CBC_SIZE);
      buffer := new byte[MAX_CLIENT_BUFFER_SIZE](_ => 0);
      delivered := [];
    }

    method CanAcceptMoreData() returns (can: bool)
      requires Valid()
      ensures can <==> Space(Abs()) > 0
    {
      var space := bcb.AvailableSize();
      can := space > 0;
    }

    method IsBufferReadyToFlush() returns (ready: bool)
      requires Valid() && !bcb.locked
      modifies bcb
      ensures Valid() && !bcb.locked && Abs() == old(Abs())
      ensures ready <==> Ready(kind, Abs().held)
      ensures kind.VariableSize? ==>
                var held := Abs().held;
                ready <==> |held| >= 2 && |held| >= 2 + (held[0] as int * 256 + held[1] as int)
      ensures kind.FixedSize? ==> (ready <==> |Abs().held| >= kind.size)
    {
      HeaderAsRead(bcb.Contents());
      match kind
      case VariableSize =>
        if bcb.currentSize < HDR_MSG_SIZE {
          return false;
        }
        ghost var held := bcb.Contents();
        var header := new byte[HDR_MSG_SIZE](_ => 0);
        var n := bcb.Read(header, HDR_MSG_SIZE, false);
        assert header[..HDR_MSG_SIZE][0] == held[0] && header[..HDR_MSG_SIZE][1] == held[1];
        var messageLength := Ntohs(header[0], header[1]);
        return bcb.currentSize >= HDR_MSG_SIZE + messageLength;
      case FixedSize(k) =>
        QuotientIsPositive(bcb.currentSize, k);
        return bcb.currentSize / k > 0;
    }

    /** The variable-size drain. All three reads of each round succeed, so the mutex is free at the end. */
    method DrainFrames()
      requires Valid() && kind.VariableSize? && !bcb.locked
      modifies this, bcb, buffer
      ensures Valid() && !bcb.locked
      ensures Abs() == Receive(kind, old(Abs()), [])
    {
      ghost var start := Abs();
      assert start.held + [] == start.held;
      assert start.log + [] == start.log;
      var ready := IsBufferReadyToFlush();
      while ready
        invariant Valid() && !bcb.locked
        invariant ready <==> Ready(kind, Abs().held)
        invariant Receive(kind, Abs(), []) == Receive(kind, start, [])
        decreases |Abs().held|
      {
        ReceiveOneMessage(kind, Abs());
        DeliverFrame();
        ready := IsBufferReadyToFlush();
      }
      assert Abs().held + [] == Abs().held;
      assert Abs().log + [] == Abs().log;
    }

    /** One round of the variable-size drain: header, payload, terminator, callback. */
    method DeliverFrame()
      requires Valid() && kind.VariableSize? && !bcb.locked && Ready(kind, Abs().held)
      modifies this, bcb, buffer
      ensures Valid() && !bcb.locked
      ensures var st := old(Abs());
              Abs() == Endpoint(st.held[WireLength(kind, st.held)..], st.log + [Message(kind, st.held)])
    {
      ghost var held := bcb.Contents();
      var messageLength := ReadHeader();
      HandOver(messageLength);
      assert held[HDR_MSG_SIZE..][messageLength..] == held[WireLength(kind, held)..];
      assert held[HDR_MSG_SIZE..][..messageLength] == Message(kind, held);
    }

    /** The header is read off the ring. */
    method ReadHeader() returns (messageLength: nat)
      requires Valid() && !bcb.locked && |Abs().held| >= HDR_MSG_SIZE
      modifies bcb
      ensures Valid() && !bcb.locked
      ensures messageLength == PayloadLength(old(Abs().held))
      ensures messageLength == old(Abs().held)[0] as int * 256 + old(Abs().held)[1] as int
      ensures Abs() == Endpoint(old(Abs().held)[HDR_MSG_SIZE..], old(Abs().log))
    {
      ghost var held := bcb.Contents();
      var header := new byte[HDR_MSG_SIZE](_ => 0);
      var headerRead := bcb.Read(header, HDR_MSG_SIZE, true);
      assert header[..HDR_MSG_SIZE][0] == held[0] && header[..HDR_MSG_SIZE][1] == held[1];
      messageLength := Ntohs(header[0], header[1]);
    }

    /** The payload is read into the scratch buffer, terminated there and handed to the application. */
    method HandOver(messageLength: nat)
      requires Valid() && !bcb.locked && messageLength <= |Abs().held|
      modifies this, bcb, buffer
      ensures Valid() && !bcb.locked
      ensures var st := old(Abs());
              Abs() == Endpoint(st.held[messageLength..], st.log + [st.held[..messageLength]])
    {
      ghost var held := bcb.Contents();
      var bytesRead := bcb.Read(buffer, messageLength, true);
      assert buffer[..bytesRead] == held[..messageLength];
      buffer[bytesRead] := 0;
      assert buffer[..bytesRead] == held[..messageLength];
      delivered := delivered + [buffer[..bytesRead]];
    }

    /** The fixed-size drain. It stops at the first read that fails, and that read keeps the mutex. */
    method DrainBlocks()
      requires Valid() && kind.FixedSize? && !bcb.locked
      modifies this, bcb, buffer
      ensures Valid()
      ensures bcb.locked <==> Ready(kind, old(Abs()).held)
      ensures Abs() == Receive(kind, old(Abs()), [])
    {
      ghost var start := Abs();
      assert start.held + [] == start.held;
      assert start.log + [] == start.log;
      var ready := IsBufferReadyToFlush();
      if !ready {
        return;
      }
      var bytesRead := bcb.Read(buffer, kind.size, true);
      ghost var st := start;
      while bytesRead != 0
        invariant Valid()
        invariant bytesRead == 0 || (bytesRead == kind.size && Ready(kind, st.held) && !bcb.locked)
        invariant bytesRead == 0 ==> bcb.locked && !Ready(kind, st.held) && Abs() == st
        invariant bytesRead != 0 ==>
                    buffer[..bytesRead] == Message(kind, st.held)
                    && Abs() == Endpoint(st.held[kind.size..], st.log)
        invariant Receive(kind, st, []) == Receive(kind, start, [])
        decreases |st.held|
      {
        ghost var message := buffer[..bytesRead];
        buffer[bytesRead] := 0;
        assert buffer[..bytesRead] == message;
        delivered := delivered + [buffer[..bytesRead]];
        ReceiveOneMessage(kind, st);
        st := Abs();
        bytesRead := bcb.Read(buffer, kind.size, true);
      }
      assert Abs().held + [] == Abs().held;
      assert Abs().log + [] == Abs().log;
    }

    method ProcessClientMsg()
      requires Valid() && !bcb.locked
      modifies this, bcb, buffer
      ensures Valid()
      ensures bcb.locked <==> kind.FixedSize? && Ready(kind, old(Abs()).held)
      ensures Abs() == Receive(kind, old(Abs()), [])
    {
      match kind
      case VariableSize => DrainFrames();
      case FixedSize(_) => DrainBlocks();
    }

    /** ProcessMsg. A message that fits is stored whole and the ring is drained. One that does not fills the
        ring, the remainder is dropped, and nothing is drained. */
    method ProcessMsg(message: array<byte>, size: nat)
      requires Valid() && !bcb.locked
      requires size <= message.Length && message !in Repr()
      modifies this, bcb, bcb.buffer, buffer
      ensures Valid()
      ensures Abs() == Process(kind, old(Abs()), old(message[..size]))
      ensures bcb.locked <==>
                && kind.FixedSize? && size <= Space(old(Abs()))
                && Ready(kind, old(Abs().held) + old(message[..size]))
      ensures size <= Space(old(Abs())) ==>
                LockedEndpoint(Abs(), bcb.locked)
                == Attempt(kind, LockedEndpoint(old(Abs()), false), old(message[..size]))
    {
      ghost var st := Abs();
      ghost var msg := message[..];
      var remaining, at := size, 0;
      while remaining > 0
        invariant Valid() && !bcb.locked
        invariant 0 <= remaining && at + remaining == size && at <= Space(st)
        invariant message[..] == msg
        invariant Abs() == Endpoint(st.held + msg[..at], st.log)
        decreases remaining
      {
        var space := bcb.AvailableSize();
        if space == 0 {
          assert msg[..at] == old(message[..size])[..Space(st)];
          return;
        }
        var toWrite := if remaining < space then remaining else space;
        var written := bcb.Write(message, at, toWrite);
        assert msg[..at] + msg[at..at + written] == msg[..at + written];
        Associate(st.held, msg[..at], msg[at..at + written]);
        at := at + written;
        remaining := remaining - written;
      }
      assert at == size && msg[..at] == old(message[..size]);
      assert (st.held + msg[..at]) + [] == st.held + msg[..at];
      ProcessClientMsg();
    }
  }

  /** One round of either drain loop: deliver the first message, keep what follows it. */
  lemma ReceiveOneMessage(kind: Kind, st: Endpoint)
    requires kind.Valid() && Ready(kind, st.held)
    ensures Receive(kind, st, [])
         == Receive(kind, Endpoint(st.held[WireLength(kind, st.held)..], st.log + [Message(kind, st.held)]), [])
  {
    var n := WireLength(kind, st.held);
    assert st.held + [] == st.held && st.held[n..] + [] == st.held[n..];
    Associate(st.log, [Message(kind, st.held)], Drain(kind, st.held[n..]).messages);
  }
}
