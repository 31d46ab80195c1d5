/** The epoll service loop (TcpClientServiceManager.cpp) over clients whose sockets answer as they like. */
module Service {
  import opened Bytes
  import opened Demarcar
  import opened Framing
  import opened Receiving
  import opened Sequences
  import opened ServerModel

  /** What the kernel has in store for a socket: a segment of bytes, or one of recv's other answers. */
  datatype Answer =
    | Segment(bytes: seq<byte>)
    | WouldBlock
    | PeerClosed
    | Failed

  /** The bytes that arrive before the next answer that is not a segment. */
  function Pending(inbox: seq<Answer>): seq<byte> {
    if inbox == [] || !inbox[0].Segment? then [] else inbox[0].bytes + Pending(inbox[1..])
  }

  /** All bytes the socket will ever hand over. */
  function Stream(inbox: seq<Answer>): seq<byte> {
    if inbox == [] then [] else (if inbox[0].Segment? then inbox[0].bytes else []) + Stream(inbox[1..])
  }

  /** Is that next answer the end of the connection? */
  predicate EndsConnection(inbox: seq<Answer>) {
    inbox != [] && (if inbox[0].Segment? then EndsConnection(inbox[1..]) else !inbox[0].WouldBlock?)
  }

  function Segments(answers: seq<Answer>): seq<seq<byte>> {
    seq(|answers|, i requires 0 <= i < |answers| => if answers[i].Segment? then answers[i].bytes else [])
  }

  /** What a socket has to offer is the segments up to the first other answer; that answer ends the connection
      unless it is "would block". */
  lemma {:induction false} OfferedIs(inbox: seq<Answer>) returns (k: nat)
    ensures k <= |inbox| && (forall i | 0 <= i < k :: inbox[i].Segment?) && (k < |inbox| ==> !inbox[k].Segment?)
    ensures Pending(inbox) == Flatten(Segments(inbox[..k]))
    ensures EndsConnection(inbox) <==> k < |inbox| && (inbox[k].PeerClosed? || inbox[k].Failed?)
    decreases |inbox|
  {
    k := 0;
    if inbox != [] && inbox[0].Segment? {
      k := OfferedIs(inbox[1..]);
      k := k + 1;
      assert Segments(inbox[..k])[1..] == Segments(inbox[1..][..k - 1]);
    }
  }

  /** `bytes` were taken off the front of a socket's queue. */
  ghost predicate Took(was: seq<Answer>, now: seq<Answer>, bytes: seq<byte>) {
    && Pending(was) == bytes + Pending(now)
    && Stream(was) == bytes + Stream(now)
    && EndsConnection(was) == EndsConnection(now)
  }

  lemma TookMore(was: seq<Answer>, between: seq<Answer>, now: seq<Answer>, a: seq<byte>, b: seq<byte>)
    requires Took(was, between, a) && Took(between, now, b)
    ensures Took(was, now, a + b)
  {
    Associate(a, b, Pending(now));
    Associate(a, b, Stream(now));
  }

  function Weight(inbox: seq<Answer>): nat {
    if inbox == [] then 0
    else 1 + (if inbox[0].Segment? then |inbox[0].bytes| else 0) + Weight(inbox[1..])
  }

  predicate Deliverable(inbox: seq<Answer>) {
    forall i | 0 <= i < |inbox| && inbox[i].Segment? :: inbox[i].bytes != []
  }

  class TcpClient {
    const commFd: int
    const msgd: TcpMsgDemarcar
    /** The kernel's queue for `commFd`. */
    var inbox: seq<Answer>

    ghost predicate Valid()
      reads Repr()
    {
      && msgd.Valid()
      && msgd.kind == VariableSize
      && !msgd.bcb.locked
      && Drained(VariableSize, msgd.Abs())
      && Deliverable(inbox)
    }

    ghost function Repr(): set<object> {
      {this} + msgd.Repr()
    }

    constructor (fd: int, inbox: seq<Answer>)
      requires Deliverable(inbox)
      ensures Valid() && fresh(Repr())
      ensures commFd == fd && this.inbox == inbox && msgd.Abs() == FRESH
    {
      commFd := fd;
      msgd := new TcpMsgDemarcar(VariableSize);
      this.inbox := inbox;
      new;
      NothingReadyYet(VariableSize);
    }

    /** recv(commFd, dest, space, 0): between 1 and `space` bytes of the next segment, or the next answer. */
    method Recv(dest: array<byte>, space: nat) returns (answer: Answer)
      requires 0 < space <= dest.Length && Deliverable(inbox)
      modifies `inbox, dest
      ensures Deliverable(inbox)
      ensures answer.Segment? ==>
                && 0 < |answer.bytes| <= space
                && dest[..|answer.bytes|] == answer.bytes
                && Took(old(inbox), inbox, answer.bytes)
      ensures !answer.Segment? ==>
                && old(Pending(inbox)) == [] && old(EndsConnection(inbox)) == !answer.WouldBlock?
                && Stream(inbox) == old(Stream(inbox))
      ensures old(inbox) == [] ==> answer == WouldBlock && inbox == []
      ensures old(inbox) != [] ==> Weight(inbox) < old(Weight(inbox))
    {
      if inbox == [] {
        return WouldBlock;
      }
      if !inbox[0].Segment? {
        answer := inbox[0];
        inbox := inbox[1..];
        return;
      }
      var bytes := inbox[0].bytes;
      var n := if |bytes| <= space then |bytes| else space;
      forall i | 0 <= i < n {
        dest[i] := bytes[i];
      }
      answer := Segment(bytes[..n]);
      if n == |bytes| {
        inbox := inbox[1..];
        assert bytes[..n] == bytes;
      } else {
        var rest := inbox[1..];
        inbox := [Segment(bytes[n..])] + rest;
        assert inbox[1..] == rest;
        assert bytes == bytes[..n] + bytes[n..];
        Associate(bytes[..n], bytes[n..], Pending(rest));
        Associate(bytes[..n], bytes[n..], Stream(rest));
      }
    }
  }

  lemma OnlyItself(client: TcpClient)
    ensures forall c: TcpClient | c != client :: c !in client.Repr()
  {}

  /** Different descriptors and no shared object. */
  ghost predicate Apart(c: TcpClient, d: TcpClient) {
    && c.commFd != d.commFd
    && c.msgd != d.msgd && c.msgd.bcb != d.msgd.bcb
    && c.msgd.buffer != d.msgd.buffer && c.msgd.bcb.buffer != d.msgd.bcb.buffer
    && c.msgd.buffer != d.msgd.bcb.buffer && c.msgd.bcb.buffer != d.msgd.buffer
  }

  ghost predicate Separated(cs: seq<TcpClient>) {
    forall i, j | 0 <= i < j < |cs| :: Apart(cs[i], cs[j])
  }

  ghost predicate HasFd(cs: seq<TcpClient>, fd: int) {
    exists i | 0 <= i < |cs| :: cs[i].commFd == fd
  }

  /** The descriptors of the registered clients are exactly these. */
  ghost predicate Registry(cs: seq<TcpClient>, fds: set<int>) {
    forall fd :: fd in fds <==> HasFd(cs, fd)
  }

  lemma RegistrySnoc(cs: seq<TcpClient>, fds: set<int>, c: TcpClient)
    requires Registry(cs, fds)
    ensures Registry(cs + [c], fds + {c.commFd})
  {
    forall fd
      ensures HasFd(cs + [c], fd) <==> HasFd(cs, fd) || fd == c.commFd
    {
      if HasFd(cs, fd) {
        var i :| 0 <= i < |cs| && cs[i].commFd == fd;
        assert (cs + [c])[i].commFd == fd;
      } else if fd == c.commFd {
        assert (cs + [c])[|cs|].commFd == fd;
      }
    }
  }

  function Without<T>(cs: seq<T>, i: nat): seq<T>
    requires i < |cs|
  {
    cs[..i] + cs[i + 1..]
  }

  lemma RegistryWithout(cs: seq<TcpClient>, fds: set<int>, i: nat)
    requires i < |cs| && Registry(cs, fds) && Separated(cs)
    ensures Registry(Without(cs, i), fds - {cs[i].commFd})
    ensures Separated(Without(cs, i))
  {
    var ds := Without(cs, i);
    forall fd
      ensures HasFd(ds, fd) <==> HasFd(cs, fd) && fd != cs[i].commFd
    {
      if HasFd(cs, fd) && fd != cs[i].commFd {
        var j :| 0 <= j < |cs| && cs[j].commFd == fd;
        assert ds[if j < i then j else j - 1].commFd == fd;
      }
      if HasFd(ds, fd) {
        var j :| 0 <= j < |ds| && ds[j].commFd == fd;
        var at := if j < i then j else j + 1;
        assert cs[at].commFd == fd;
        assert if at < i then Apart(cs[at], cs[i]) else Apart(cs[i], cs[at]);
      }
    }
  }

  class TcpClientServiceManager {
    var clients: seq<TcpClient>
    /** The one receive buffer all clients share. */
    const recvBuffer: array<byte>
    /** The registered clients as a state of the server model. */
    ghost var server: Server

    ghost predicate Valid()
      reads this, AllReprs()
    {
      && recvBuffer.Length == MAX_CLIENT_BUFFER_SIZE
      && Separated(clients)
      && Registry(clients, server.Keys)
      && (forall i | 0 <= i < |clients| :: Serviceable(clients[i]))
    }

    /** A registered client: in working order, not sharing the receive buffer, tracked by the server state. */
    ghost predicate Serviceable(c: TcpClient)
      reads this, c.Repr()
    {
      && c.Valid()
      && recvBuffer != c.msgd.buffer && recvBuffer != c.msgd.bcb.buffer
      && c.commFd in server && server[c.commFd] == c.msgd.Abs()
    }

    ghost function AllReprs(): set<object>
      reads this
    {
      set i, o | 0 <= i < |clients| && o in clients[i].Repr() :: o
    }

    constructor ()
      ensures Valid() && server == map[] && fresh(recvBuffer) && clients == []
    {
      clients := [];
      recvBuffer := new byte[MAX_CLIENT_BUFFER_SIZE](_ => 0);
      server := map[];
    }

    /** AddClientToDB for a descriptor the kernel has just handed out. */
    method AddClient(client: TcpClient)
      requires Valid() && client.Valid() && client.msgd.Abs() == FRESH
      requires recvBuffer != client.msgd.buffer && recvBuffer != client.msgd.bcb.buffer
      requires forall i | 0 <= i < |clients| :: Apart(clients[i], client)
      modifies this`clients, this`server
      ensures Valid() && clients == old(clients) + [client]
      ensures server == Apply(old(server), Accept(client.commFd))
    {
      RegistrySnoc(clients, server.Keys, client);
      assert client.commFd !in server;
      clients := clients + [client];
      server := server[client.commFd := FRESH];
      assert server.Keys == old(server).Keys + {client.commFd};
      forall i | 0 <= i < |clients|
        ensures Serviceable(clients[i])
      {
        if i < |old(clients)| {
          assert old(Serviceable(clients[i]));
          assert Apart(clients[i], client);
        }
      }
    }

    method GetClientByFd(fd: int) returns (client: TcpClient?)
      requires Valid()
      ensures Valid()
      ensures client == null <==> fd !in server
      ensures client != null ==> client in clients && client.commFd == fd
    {
      for i := 0 to |clients|
        invariant forall j | 0 <= j < i :: clients[j].commFd != fd
      {
        if clients[i].commFd == fd {
          return clients[i];
        }
      }
      return null;
    }

    /** The inner loop for one readable client: receive what the ring has room for until it is full, the
        socket runs dry, or the connection ends. */
    method ServiceClient(client: TcpClient) returns (gone: bool, ghost chunks: seq<seq<byte>>, ghost left: seq<byte>)
      requires recvBuffer.Length == MAX_CLIENT_BUFFER_SIZE && Serviceable(client)
      modifies client.Repr(), recvBuffer
      ensures client.Valid()
      ensures Legal(VariableSize, old(client.msgd.Abs()), chunks)
      ensures client.msgd.Abs() == Run(VariableSize, old(client.msgd.Abs()), chunks)
      ensures old(Pending(client.inbox)) == Flatten(chunks) + left
      ensures left == [] || (Space(client.msgd.Abs()) == 0 && left == Pending(client.inbox))
      ensures old(Stream(client.inbox)) == Flatten(chunks) + Stream(client.inbox)
      ensures gone ==> left == []
      ensures gone <==> old(EndsConnection(client.inbox)) && Space(client.msgd.Abs()) > 0
    {
      ghost var start, inbox := client.msgd.Abs(), client.inbox;
      chunks := [];
      while true
        invariant client.Valid()
        invariant Legal(VariableSize, start, chunks)
        invariant client.msgd.Abs() == Run(VariableSize, start, chunks)
        invariant Took(inbox, client.inbox, Flatten(chunks))
        decreases Weight(client.inbox)
      {
        var space := client.msgd.bcb.AvailableSize();
        if space == 0 {
          return false, chunks, Pending(client.inbox);
        }
        ghost var before := client.inbox;
        var answer := ReceiveOnce(client, space);
        match answer {
          case Segment(bytes) =>
            RunSnoc(VariableSize, start, chunks, bytes);
            FlattenSnoc(chunks, bytes);
            TookMore(inbox, before, client.inbox, Flatten(chunks), bytes);
            chunks := chunks + [bytes];
          case WouldBlock =>
            return false, chunks, [];
          case PeerClosed =>
            return true, chunks, [];
          case Failed =>
            return true, chunks, [];
        }
      }
    }

    /** One call of recv, and of the demarcar if it brought bytes. */
    method ReceiveOnce(client: TcpClient, space: nat) returns (answer: Answer)
      requires recvBuffer.Length == MAX_CLIENT_BUFFER_SIZE && client.Valid() && space == Space(client.msgd.Abs()) > 0
      requires recvBuffer != client.msgd.buffer && recvBuffer != client.msgd.bcb.buffer
      modifies client.Repr(), recvBuffer
      ensures client.Valid()
      ensures answer.Segment? ==>
                && 0 < |answer.bytes| <= space && Took(old(client.inbox), client.inbox, answer.bytes)
                && client.msgd.Abs() == Receive(VariableSize, old(client.msgd.Abs()), answer.bytes)
      ensures !answer.Segment? ==>
                && old(Pending(client.inbox)) == [] && old(EndsConnection(client.inbox)) == !answer.WouldBlock?
                && Stream(client.inbox) == old(Stream(client.inbox))
                && client.msgd.Abs() == old(client.msgd.Abs())
      ensures old(client.inbox) == [] ==> answer == WouldBlock && client.inbox == []
      ensures old(client.inbox) != [] ==> Weight(client.inbox) < old(Weight(client.inbox))
    {
      answer := client.Recv(recvBuffer, space);
      if answer.Segment? {
        ProcessReceived(client, answer.bytes);
      }
    }

    /** The received bytes, which are in the shared buffer, go through the client's demarcar. */
    method ProcessReceived(client: TcpClient, bytes: seq<byte>)
      requires recvBuffer.Length == MAX_CLIENT_BUFFER_SIZE && client.Valid()
      requires recvBuffer != client.msgd.buffer && recvBuffer != client.msgd.bcb.buffer
      requires |bytes| <= Space(client.msgd.Abs()) && recvBuffer[..|bytes|] == bytes
      modifies client.msgd.Repr()
      ensures client.Valid() && client.inbox == old(client.inbox)
      ensures client.msgd.Abs() == Receive(VariableSize, old(client.msgd.Abs()), bytes)
    {
      ReceiveDrains(VariableSize, client.msgd.Abs(), bytes);
      client.msgd.ProcessMsg(recvBuffer, |bytes|);
    }

    /** RemoveClient: the list keeps its other clients, in order. */
    method RemoveClient(client: TcpClient)
      requires Valid() && client in clients
      modifies this`clients, this`server
      ensures Valid() && client !in clients && forall c | c in clients :: c in old(clients)
      ensures server == Apply(old(server), Closed(client.commFd)) && client.commFd !in server
      ensures AllReprs() <= old(AllReprs())
    {
      var i := 0;
      while clients[i] != client
        invariant 0 <= i < |clients| && client in clients[i..]
        decreases |clients| - i
      {
        i := i + 1;
      }
      RegistryWithout(clients, server.Keys, i);
      clients := Without(clients, i);
      server := server - {client.commFd};
      assert server.Keys == old(server).Keys - {client.commFd};
      forall j | 0 <= j < |clients|
        ensures Serviceable(clients[j]) && clients[j] != client
      {
        var at := if j < i then j else j + 1;
        assert clients[j] == old(clients)[at];
        assert old(Serviceable(clients[at]));
        assert if at < i then Apart(clients[j], client) else Apart(client, clients[j]);
      }
    }

    /** The inner loop on a registered client leaves every other client as it was. */
    method ServeRegistered(client: TcpClient, ghost i: nat)
      returns (gone: bool, ghost chunks: seq<seq<byte>>, ghost left: seq<byte>)
      requires Valid() && i < |clients| && clients[i] == client
      modifies this`server, recvBuffer, client.Repr()
      ensures Valid() && clients == old(clients)
      ensures var start := old(server)[client.commFd];
              && Drained(VariableSize, start) && Legal(VariableSize, start, chunks)
              && server == old(server)[client.commFd := Run(VariableSize, start, chunks)]
              && (left == [] || Space(server[client.commFd]) == 0)
              && (gone <==> old(EndsConnection(client.inbox)) && Space(server[client.commFd]) > 0)
      ensures old(Pending(client.inbox)) == Flatten(chunks) + left
      ensures old(Stream(client.inbox)) == Flatten(chunks) + Stream(client.inbox)
    {
      assert Serviceable(client);
      gone, chunks, left := ServiceClient(client);
      server := server[client.commFd := client.msgd.Abs()];
      assert server.Keys == old(server).Keys;
      forall j | 0 <= j < |clients|
        ensures Serviceable(clients[j])
      {
        assert old(Serviceable(clients[j]));
        assert j != i ==> if j < i then Apart(clients[j], clients[i]) else Apart(clients[i], clients[j]);
      }
    }

    /** A readable client is served and, when its connection ended, removed. */
    method ServeEvent(client: TcpClient, ghost i: nat) returns (ghost trace: seq<Step>, ghost offered: seq<byte>)
      requires Valid() && i < |clients| && clients[i] == client
      modifies this`clients, this`server, recvBuffer, client.Repr()
      ensures Valid() && AllReprs() <= old(AllReprs()) && forall c | c in clients :: c in old(clients)
      ensures server == RunServer(old(server), trace) && OwnSteps(client.commFd, trace)
      ensures ReceivedBytes(client.commFd, trace) + Stream(client.inbox) == old(Stream(client.inbox))
      ensures offered == old(Pending(client.inbox)) && client.msgd.Valid()
      ensures Served(old(server)[client.commFd], offered, old(EndsConnection(client.inbox)), client.msgd.Abs(),
                     server, client.commFd)
    {
      ghost var fd, before := client.commFd, server;
      offered := Pending(client.inbox);
      var gone, chunks, left := ServeRegistered(client, i);
      GreedyExhausts(before[fd], chunks, left);
      EventTraceEffect(before, fd, chunks, gone);
      EventTraceIsOwn(fd, chunks, gone);
      trace := EventTrace(fd, chunks, gone);
      assert Serviceable(clients[i]);
      if gone {
        RemoveClient(client);
      }
    }

    /** One event returned by epoll_wait. An unknown descriptor is skipped; otherwise the client is served and,
        when its connection ended, removed. The manager's state follows the server model by steps of this
        descriptor only; the bytes received are the next ones of this client's own socket, and no other
        client's socket is touched. For the served client, removed or not, the log is what `Deliver` cuts from
        all its socket had to offer, and the ring holds the rest as far as it fits. */
    method HandleEvent(fd: int) returns (ghost trace: seq<Step>, ghost served: TcpClient?, ghost offered: seq<byte>)
      requires Valid()
      modifies this`clients, this`server, recvBuffer, AllReprs()
      ensures Valid() && AllReprs() <= old(AllReprs()) && forall c | c in clients :: c in old(clients)
      ensures server == RunServer(old(server), trace) && OwnSteps(fd, trace)
      ensures served == null <==> fd !in old(server)
      ensures served == null ==> trace == []
      ensures served != null ==>
                && served in old(clients) && served.commFd == fd && offered == old(Pending(served.inbox))
                && served.msgd.Valid()
                && Served(old(server)[fd], offered, old(EndsConnection(served.inbox)), served.msgd.Abs(), server, fd)
                && ReceivedBytes(fd, trace) + Stream(served.inbox) == old(Stream(served.inbox))
      ensures forall c: TcpClient | old(allocated(c)) && c != served :: c.inbox == old(c.inbox)
    {
      trace, offered := [], [];
      var client := GetClientByFd(fd);
      served := client;
      if client != null {
        ghost var i :| 0 <= i < |clients| && clients[i] == client;
        assert forall o | o in client.Repr() :: o in AllReprs();
        trace, offered := ServeEvent(client, i);
        OnlyItself(client);
      }
    }

    /** One round of the epoll loop: the events are handled in the order epoll_wait returned them, and one for
        a client that an earlier event removed does nothing. The steps are those of the descriptors reported,
        and what a client receives in them are the next bytes of its own socket. */
    method HandleEvents(fds: seq<int>) returns (ghost trace: seq<Step>)
      requires Valid()
      modifies this`clients, this`server, recvBuffer, AllReprs()
      ensures Valid()
      ensures server == RunServer(old(server), trace)
      ensures forall step | step in trace :: step.fd in fds
      ensures forall c | c in old(clients) ::
                ReceivedBytes(c.commFd, trace) + Stream(c.inbox) == old(Stream(c.inbox))
    {
      trace := [];
      ghost var all := clients;
      ghost var streams := map c | c in all :: Stream(c.inbox);
      for i := 0 to |fds|
        invariant Valid() && AllReprs() <= old(AllReprs())
        invariant server == RunServer(old(server), trace)
        invariant forall step | step in trace :: step.fd in fds[..i]
        invariant TakenInOrder(all, clients, streams, trace)
      {
        ghost var steps := HandleNext(fds[i], all, streams, trace);
        RunServerAppend(old(server), trace, steps);
        trace := trace + steps;
      }
    }

    /** One of the events. */
    method HandleNext(fd: int, ghost all: seq<TcpClient>, ghost streams: map<TcpClient, seq<byte>>,
                      ghost trace: seq<Step>)
      returns (ghost steps: seq<Step>)
      requires Valid() && TakenInOrder(all, clients, streams, trace)
      modifies this`clients, this`server, recvBuffer, AllReprs()
      ensures Valid() && AllReprs() <= old(AllReprs()) && TakenInOrder(all, clients, streams, trace + steps)
      ensures server == RunServer(old(server), steps) && OwnSteps(fd, steps)
    {
      ghost var served, offered;
      ghost var before := map c | c in all :: Stream(c.inbox);
      steps, served, offered := HandleEvent(fd);
      NextInOrder(all, fd, served, before, streams, trace, steps);
    }
  }

  /** Each of `all`, registered still or not, has received the bytes its socket had to offer, in order. */
  ghost predicate TakenInOrder(all: seq<TcpClient>, clients: seq<TcpClient>, streams: map<TcpClient, seq<byte>>,
                               trace: seq<Step>)
    reads all
  {
    && Separated(all) && (forall c | c in clients :: c in all)
    && forall c | c in all :: c in streams && ReceivedBytes(c.commFd, trace) + Stream(c.inbox) == streams[c]
  }

  lemma ReceivedFurther(fd: int, trace: seq<Step>, steps: seq<Step>, before: seq<byte>, now: seq<byte>,
                        all: seq<byte>)
    requires ReceivedBytes(fd, trace) + before == all && ReceivedBytes(fd, steps) + now == before
    ensures ReceivedBytes(fd, trace + steps) + now == all
  {
    ReceivedAppend(fd, trace, steps);
    Associate(ReceivedBytes(fd, trace), ReceivedBytes(fd, steps), now);
  }

  /** One event more: the served client took the next bytes of its socket, the others none. */
  lemma NextInOrder(all: seq<TcpClient>, fd: int, served: TcpClient?, before: map<TcpClient, seq<byte>>,
                    streams: map<TcpClient, seq<byte>>, trace: seq<Step>, steps: seq<Step>)
    requires Separated(all) && OwnSteps(fd, steps) && (served == null ==> steps == [])
    requires served != null ==> served in all && served.commFd == fd
    requires forall c | c in all :: c in before && c in streams
    requires forall c | c in all :: ReceivedBytes(c.commFd, trace) + before[c] == streams[c]
    requires forall c | c in all && c != served :: Stream(c.inbox) == before[c]
    requires served != null ==> ReceivedBytes(fd, steps) + Stream(served.inbox) == before[served]
    ensures forall c | c in all :: ReceivedBytes(c.commFd, trace + steps) + Stream(c.inbox) == streams[c]
  {
    forall c | c in all
      ensures ReceivedBytes(c.commFd, trace + steps) + Stream(c.inbox) == streams[c]
    {
      if c != served {
        OthersReceiveNothing(all, fd, served, c, steps);
      }
      ReceivedFurther(c.commFd, trace, steps, before[c], Stream(c.inbox), streams[c]);
    }
  }

  lemma OthersReceiveNothing(all: seq<TcpClient>, fd: int, served: TcpClient?, c: TcpClient, steps: seq<Step>)
    requires Separated(all) && OwnSteps(fd, steps) && (served == null ==> steps == [])
    requires served != null ==> served in all && served.commFd == fd
    requires c in all && c != served
    ensures ReceivedBytes(c.commFd, steps) == []
  {
    if served != null {
      OtherDescriptor(all, served, c);
    }
    NothingReceived(c.commFd, steps);
  }

  lemma OtherDescriptor(all: seq<TcpClient>, c: TcpClient, d: TcpClient)
    requires Separated(all) && c in all && d in all && c != d
    ensures c.commFd != d.commFd
  {
    var i :| 0 <= i < |all| && all[i] == c;
    var j :| 0 <= j < |all| && all[j] == d;
    assert if i < j then Apart(all[i], all[j]) else Apart(all[j], all[i]);
  }

  ghost predicate OwnSteps(fd: int, trace: seq<Step>) {
    forall step | step in trace :: step.fd == fd
  }

  /** What is left of this input once everything deliverable is delivered fills the ring. */
  ghost predicate FillsRing(input: seq<byte>) {
    |Deliver(VariableSize, input).rest| >= DEFAULT_CBC_SIZE
  }

  /** A client was served: it is where `Exhausted` says, and no longer registered exactly when its connection
      ended and the ring did not fill first. */
  ghost predicate Served(before: Endpoint, offered: seq<byte>, ends: bool, after: Endpoint, server: Server, fd: int) {
    && Exhausted(before, offered, after)
    && (fd in server ==> server[fd] == after)
    && (fd !in server <==> ends && !FillsRing(before.held + offered))
  }

  /** `after` is where a connection ends up once `offered` was received as far as the ring allowed. */
  ghost predicate Exhausted(before: Endpoint, offered: seq<byte>, after: Endpoint) {
    var all := Deliver(VariableSize, before.held + offered);
    && after.log == before.log + all.messages
    && after.held <= all.rest
    && |after.held| == if |all.rest| <= DEFAULT_CBC_SIZE then |all.rest| else DEFAULT_CBC_SIZE
  }

  lemma GreedyExhausts(before: Endpoint, chunks: seq<seq<byte>>, left: seq<byte>)
    requires Drained(VariableSize, before) && Legal(VariableSize, before, chunks)
    requires left == [] || Space(Run(VariableSize, before, chunks)) == 0
    ensures Exhausted(before, Flatten(chunks) + left, Run(VariableSize, before, chunks))
    ensures FillsRing(before.held + (Flatten(chunks) + left)) <==> Space(Run(VariableSize, before, chunks)) == 0
  {
    GreedyOutcome(VariableSize, before, chunks, left);
    RunDrains(VariableSize, before, chunks);
  }
}
