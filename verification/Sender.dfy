/** The frame encoder of the sample client (tcp_client_fix_sizestr_sender.cpp). */
module Sender {
  import opened Bytes
  import opened ByteRing
  import opened Framing
  import opened Receiving
  import opened Sequences

  /** The longest payload whose frame length still fits the 16-bit `total_len`; from 65534 on that length
      wraps around and the buffer allocated for the frame is shorter than what is copied into it. */
  const MAX_SENDABLE: nat := 0x1_0000 - 1 - HDR_MSG_SIZE

  /** send_msg: the bytes handed to send() are the encoding of the payload. */
  method SendMsg(payload: array<byte>, payloadLength: nat) returns (wire: seq<byte>)
    requires payloadLength <= payload.Length && payloadLength <= MAX_SENDABLE
    ensures Sendable(VariableSize, payload[..payloadLength])
    ensures wire == Encode(VariableSize, payload[..payloadLength])
    ensures |wire| == payloadLength + 2 && wire[0] as int * 256 + wire[1] as int == payloadLength
    ensures wire[2..] == payload[..payloadLength]
  {
    var totalLength: uint16 := HDR_MSG_SIZE + payloadLength;
    var sendBuffer := new byte[totalLength](_ => 0);
    var header := Htons(payloadLength);
    sendBuffer[0], sendBuffer[1] := header[0], header[1];
    Memcpy(sendBuffer, HDR_MSG_SIZE, payload, 0, payloadLength);
    wire := sendBuffer[..];
    assert wire[..HDR_MSG_SIZE] == header;
    assert wire[HDR_MSG_SIZE..] == payload[..payloadLength];
    assert wire == wire[..HDR_MSG_SIZE] + wire[HDR_MSG_SIZE..];
  }

  /** End to end, for the payloads the server's ring can hold: whatever sizes the receives take, while the
      server still has bytes to receive it has room for them, and when all have arrived exactly the payloads
      sent were delivered, in order, and the ring is empty. */
  lemma SentIsDelivered(payloads: seq<seq<byte>>, chunks: seq<seq<byte>>, left: seq<byte>)
    requires forall p | p in payloads :: |p| <= DEFAULT_CBC_SIZE - HDR_MSG_SIZE
    requires AllSendable(VariableSize, payloads)
    requires Legal(VariableSize, FRESH, chunks)
    requires Flatten(chunks) + left == EncodeAll(VariableSize, payloads)
    ensures left != [] ==> Space(Run(VariableSize, FRESH, chunks)) > 0
    ensures left == [] ==> Run(VariableSize, FRESH, chunks) == Endpoint([], payloads)
  {
    NothingReadyYet(VariableSize);
    RunDrains(VariableSize, FRESH, chunks);
    if left == [] {
      assert Flatten(chunks) + left == Flatten(chunks);
      RoundTrip(VariableSize, payloads, chunks);
    } else if Space(Run(VariableSize, FRESH, chunks)) == 0 {
      ParseIsUnique(VariableSize, payloads, []);
      assert EncodeAll(VariableSize, payloads) + [] == EncodeAll(VariableSize, payloads);
      FittingStreamsNeverStall(VariableSize, chunks, left);
    }
  }
}
