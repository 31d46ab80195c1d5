/** What the two demarcars mean, as functions on the byte stream, and the laws of cutting a stream up. */
module Framing {
  import opened Arithmetic
  import opened Bytes
  import opened Sequences

  const HDR_MSG_SIZE: nat := 2
  const DEFAULT_CBC_SIZE: nat := 256
  const MAX_CLIENT_BUFFER_SIZE: nat := 8192

  /** The demarcation in force: length-prefixed frames, or blocks of one fixed size. */
  datatype Kind = VariableSize | FixedSize(size: nat)
  {
    predicate Valid() {
      FixedSize? ==> 0 < size < 0x1_0000
    }
  }

  /** Messages cut off the front of a stream and the bytes that are left. */
  datatype Cut = Cut(messages: seq<seq<byte>>, rest: seq<byte>)

  function PayloadLength(s: seq<byte>): uint16
    requires |s| >= HDR_MSG_SIZE
  {
    Ntohs(s[0], s[1])
  }

  /** IsBufferReadyToFlush: a whole message is at the front. */
  predicate Ready(kind: Kind, s: seq<byte>)
    requires kind.Valid()
  {
    match kind
    case VariableSize => |s| >= HDR_MSG_SIZE && |s| >= HDR_MSG_SIZE + PayloadLength(s)
    case FixedSize(k) => |s| >= k
  }

  /** The bytes a message takes up on the wire, and the part of them that is delivered. */
  function WireLength(kind: Kind, s: seq<byte>): (n: nat)
    requires kind.Valid() && Ready(kind, s)
    ensures 0 < n <= |s|
  {
    match kind
    case VariableSize => HDR_MSG_SIZE + PayloadLength(s)
    case FixedSize(k) => k
  }

  function Message(kind: Kind, s: seq<byte>): seq<byte>
    requires kind.Valid() && Ready(kind, s)
  {
    match kind
    case VariableSize => s[HDR_MSG_SIZE..WireLength(kind, s)]
    case FixedSize(k) => s[..k]
  }

  /** Cuts complete messages until none is at the front: the drain loops of both demarcars. */
  function Drain(kind: Kind, s: seq<byte>): Cut
    requires kind.Valid()
    decreases |s|
  {
    if Ready(kind, s) then
      var d := Drain(kind, s[WireLength(kind, s)..]);
      Cut([Message(kind, s)] + d.messages, d.rest)
    else Cut([], s)
  }

  // ---- the independent reference: what a message looks like on the wire ----

  /** A message a peer may send: any bytes a 16-bit header can describe, or exactly one block. */
  predicate Sendable(kind: Kind, message: seq<byte>) {
    match kind
    case VariableSize => |message| < 0x1_0000
    case FixedSize(k) => |message| == k
  }

  predicate AllSendable(kind: Kind, messages: seq<seq<byte>>) {
    forall m | m in messages :: Sendable(kind, m)
  }

  function Encode(kind: Kind, message: seq<byte>): seq<byte>
    requires Sendable(kind, message)
  {
    match kind
    case VariableSize => Htons(|message|) + message
    case FixedSize(_) => message
  }

  function EncodeAll(kind: Kind, messages: seq<seq<byte>>): seq<byte>
    requires AllSendable(kind, messages)
  {
    if messages == [] then [] else Encode(kind, messages[0]) + EncodeAll(kind, messages[1..])
  }

  /** On the wire the length comes first, its more significant byte before the other, and then the payload. */
  lemma HeaderOnTheWire(m: seq<byte>)
    requires Sendable(VariableSize, m)
    ensures var wire := Encode(VariableSize, m);
            |wire| == |m| + 2 && wire[0] as int * 256 + wire[1] as int == |m| && wire[2..] == m
  {}

  /** And that is how it is read: a stream's first message is complete when as many bytes follow the two. */
  lemma HeaderAsRead(s: seq<byte>)
    ensures Ready(VariableSize, s) <==> |s| >= 2 && |s| >= 2 + (s[0] as int * 256 + s[1] as int)
    ensures Ready(VariableSize, s) ==>
              var n := s[0] as int * 256 + s[1] as int;
              Message(VariableSize, s) == s[2..2 + n] && WireLength(VariableSize, s) == 2 + n
  {}

  lemma EncodeAllCons(kind: Kind, m: seq<byte>, ms: seq<seq<byte>>)
    requires Sendable(kind, m) && AllSendable(kind, ms)
    ensures AllSendable(kind, [m] + ms)
    ensures EncodeAll(kind, [m] + ms) == Encode(kind, m) + EncodeAll(kind, ms)
  {
    assert ([m] + ms)[1..] == ms;
  }

  /** An encoded message is ready as soon as its last byte is there, whatever follows it. */
  lemma EncodedIsReady(kind: Kind, m: seq<byte>, tail: seq<byte>)
    requires kind.Valid() && Sendable(kind, m)
    ensures var s := Encode(kind, m) + tail;
            Ready(kind, s) && WireLength(kind, s) == |Encode(kind, m)| && Message(kind, s) == m
  {
    var s := Encode(kind, m) + tail;
    if kind.VariableSize? {
      assert s[0] == Htons(|m|)[0] && s[1] == Htons(|m|)[1];
      NtohsHtons(|m|);
    }
  }

  /** The front of a ready stream is the encoding of its first message. */
  lemma ReadyIsEncoded(kind: Kind, s: seq<byte>)
    requires kind.Valid() && Ready(kind, s)
    ensures Sendable(kind, Message(kind, s))
    ensures Encode(kind, Message(kind, s)) == s[..WireLength(kind, s)]
  {
    if kind.VariableSize? {
      var m := Message(kind, s);
      assert Htons(|m|) == s[..2];
    }
  }

  /** The first message's encoding in front of a re-encoded rest. */
  lemma ReencodeOne(kind: Kind, s: seq<byte>, d: Cut)
    requires kind.Valid() && Ready(kind, s) && AllSendable(kind, d.messages)
    requires EncodeAll(kind, d.messages) + d.rest == s[WireLength(kind, s)..]
    ensures var ms := [Message(kind, s)] + d.messages;
            AllSendable(kind, ms) && EncodeAll(kind, ms) + d.rest == s
  {
    var m, n := Message(kind, s), WireLength(kind, s);
    ReadyIsEncoded(kind, s);
    EncodeAllCons(kind, m, d.messages);
    calc {
      s;
      s[..n] + s[n..];
      Encode(kind, m) + (EncodeAll(kind, d.messages) + d.rest);
      { Associate(Encode(kind, m), EncodeAll(kind, d.messages), d.rest); }
      EncodeAll(kind, [m] + d.messages) + d.rest;
    }
  }

  /** Draining loses, invents and reorders nothing: the cut re-encodes to exactly the stream. */
  lemma {:induction false} DrainReencodes(kind: Kind, s: seq<byte>)
    requires kind.Valid()
    ensures var d := Drain(kind, s);
            && AllSendable(kind, d.messages)
            && EncodeAll(kind, d.messages) + d.rest == s
            && !Ready(kind, d.rest)
    decreases |s|
  {
    if Ready(kind, s) {
      var n := WireLength(kind, s);
      DrainReencodes(kind, s[n..]);
      ReencodeOne(kind, s, Drain(kind, s[n..]));
    }
  }

  /** The three bytes 0, 1, x are a whole message of one byte. */
  lemma OneByteMessage(x: byte)
    ensures Drain(VariableSize, [0, 1, x]) == Cut([[x]], [])
  {
    var s: seq<byte> := [0, 1, x];
    HeaderAsRead(s);
    assert s[2..3] == [x] && s[3..] == [];
    assert Drain(VariableSize, []) == Cut([], []);
  }

  lemma DrainCons(kind: Kind, m: seq<byte>, tail: seq<byte>)
    requires kind.Valid() && Sendable(kind, m)
    ensures Drain(kind, Encode(kind, m) + tail)
         == Cut([m] + Drain(kind, tail).messages, Drain(kind, tail).rest)
  {
    var s := Encode(kind, m) + tail;
    EncodedIsReady(kind, m, tail);
    assert s[WireLength(kind, s)..] == tail;
  }

  /** There is only one way to read a stream as whole messages plus an incomplete rest, and draining finds it. */
  lemma {:induction false} ParseIsUnique(kind: Kind, messages: seq<seq<byte>>, rest: seq<byte>)
    requires kind.Valid() && AllSendable(kind, messages) && !Ready(kind, rest)
    ensures Drain(kind, EncodeAll(kind, messages) + rest) == Cut(messages, rest)
    decreases |messages|
  {
    if messages == [] {
      assert EncodeAll(kind, messages) + rest == rest;
    } else {
      var m, ms := messages[0], messages[1..];
      assert messages == [m] + ms;
      EncodeAllCons(kind, m, ms);
      ParseIsUnique(kind, ms, rest);
      DrainCons(kind, m, EncodeAll(kind, ms) + rest);
      Associate(Encode(kind, m), EncodeAll(kind, ms), rest);
    }
  }

  /** The two directions together: `Drain` is exactly the parser of the wire format. */
  lemma DrainIsTheParser(kind: Kind, s: seq<byte>, messages: seq<seq<byte>>, rest: seq<byte>)
    requires kind.Valid()
    ensures Drain(kind, s) == Cut(messages, rest)
        <==> AllSendable(kind, messages) && !Ready(kind, rest) && s == EncodeAll(kind, messages) + rest
  {
    DrainReencodes(kind, s);
    if AllSendable(kind, messages) && !Ready(kind, rest) && s == EncodeAll(kind, messages) + rest {
      ParseIsUnique(kind, messages, rest);
    }
  }

  /** More input never changes how earlier input was cut. */
  lemma ReadyIsStable(kind: Kind, s: seq<byte>, t: seq<byte>)
    requires kind.Valid() && Ready(kind, s)
    ensures Ready(kind, s + t)
    ensures WireLength(kind, s + t) == WireLength(kind, s) && Message(kind, s + t) == Message(kind, s)
  {}

  /** The first message is cut off alike, whatever follows. */
  lemma DrainFront(kind: Kind, s: seq<byte>, t: seq<byte>)
    requires kind.Valid() && Ready(kind, s)
    ensures var d := Drain(kind, s[WireLength(kind, s)..] + t);
            Drain(kind, s + t) == Cut([Message(kind, s)] + d.messages, d.rest)
  {
    ReadyIsStable(kind, s, t);
    assert (s + t)[WireLength(kind, s)..] == s[WireLength(kind, s)..] + t;
  }

  /** Draining in two goes equals draining once: the law chunking invariance rests on. */
  lemma {:induction false} DrainAppend(kind: Kind, s: seq<byte>, t: seq<byte>)
    requires kind.Valid()
    ensures var d := Drain(kind, s);
            var e := Drain(kind, d.rest + t);
            Drain(kind, s + t) == Cut(d.messages + e.messages, e.rest)
    decreases |s|
  {
    if Ready(kind, s) {
      var n, m := WireLength(kind, s), Message(kind, s);
      var d := Drain(kind, s[n..]);
      DrainAppend(kind, s[n..], t);
      DrainFront(kind, s, t);
      Associate([m], d.messages, Drain(kind, d.rest + t).messages);
    } else {
      assert [] + Drain(kind, s + t).messages == Drain(kind, s + t).messages;
    }
  }

  lemma {:induction false} DrainRestIsSuffix(kind: Kind, s: seq<byte>)
    requires kind.Valid()
    ensures |Drain(kind, s).rest| <= |s|
    ensures !Ready(kind, Drain(kind, s).rest)
    decreases |s|
  {
    if Ready(kind, s) {
      DrainRestIsSuffix(kind, s[WireLength(kind, s)..]);
    }
  }

  // ---- fixed-size blocks ----

  /** How many blocks a stream yields and how much of it stays behind. */
  lemma {:induction false} FixedBlockCount(k: nat, s: seq<byte>)
    requires FixedSize(k).Valid()
    ensures var d := Drain(FixedSize(k), s);
            |d.messages| == |s| / k && |d.rest| == |s| % k
    decreases |s|
  {
    if |s| >= k {
      FixedBlockCount(k, s[k..]);
      DivModStep(|s|, k);
    } else {
      DivModSmall(|s|, k);
    }
  }

  lemma ShiftedSlice<T>(s: seq<T>, from: nat, at: nat, n: nat)
    requires from + at + n <= |s|
    ensures s[from..][at..at + n] == s[at + from..at + from + n]
  {}

  /** The byte at which block number i starts: i * k. */
  function BlockStart(k: nat, i: nat): nat {
    if i == 0 then 0 else k + BlockStart(k, i - 1)
  }

  lemma {:induction false} BlockStartIs(k: nat, i: nat)
    ensures BlockStart(k, i) == i * k
    decreases i
  {
    if i > 0 {
      BlockStartIs(k, i - 1);
      MultipleStep(i, k);
    }
  }

  lemma FirstBlock(k: nat, s: seq<byte>)
    requires FixedSize(k).Valid() && |s| >= k
    ensures Drain(FixedSize(k), s).messages == [s[0..k]] + Drain(FixedSize(k), s[k..]).messages
  {
    assert s[..k] == s[0..k];
  }

  lemma NoBlock(k: nat, s: seq<byte>)
    requires FixedSize(k).Valid() && |s| < k
    ensures Drain(FixedSize(k), s).messages == []
  {}

  /** Block number i is the i-th run of k bytes of the stream. */
  lemma {:induction false} FixedBlockAt(k: nat, s: seq<byte>, i: nat)
    requires FixedSize(k).Valid() && i < |Drain(FixedSize(k), s).messages|
    ensures BlockStart(k, i) + k <= |s|
    ensures Drain(FixedSize(k), s).messages[i] == s[BlockStart(k, i)..BlockStart(k, i) + k]
    decreases i
  {
    if |s| < k {
      NoBlock(k, s);
    } else {
      FirstBlock(k, s);
      if i > 0 {
        FixedBlockAt(k, s[k..], i - 1);
        ShiftedSlice(s, k, BlockStart(k, i - 1), k);
      }
    }
  }
}
