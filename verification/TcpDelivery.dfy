/** The TCP path end to end: framed messages, the send queue with all its interleavings, a byte stream cut
    anywhere, and the parser on the other side (ClientNetworkCore/Session.cpp,
    DummyClient/ServerPacketHandler.h). */
module TcpDelivery {
  import opened Framing
  import opened TcpSendQueue

  /** Buffer `b` holds the framed message `message(b.id)`. */
  predicate Carries(b: Buffer, message: nat -> Message) {
    Sendable(TCP_HEADER, message(b.id)) && b.size == TCP_HEADER + |message(b.id).payload|
  }

  ghost predicate AllCarry(buffers: seq<Buffer>, message: nat -> Message) {
    forall i :: 0 <= i < |buffers| ==> Carries(buffers[i], message)
  }

  function MessagesOf(buffers: seq<Buffer>, message: nat -> Message): (r: seq<Message>)
    ensures |r| == |buffers|
    ensures forall i :: 0 <= i < |buffers| ==> r[i] == message(buffers[i].id)
  {
    seq(|buffers|, i requires 0 <= i < |buffers| => message(buffers[i].id))
  }

  /** A TCP header is all size and id. */
  function NoExtras(n: nat): (r: seq<seq<byte>>)
    ensures |r| == n && forall i :: 0 <= i < n ==> r[i] == []
  {
    seq(n, _ => [])
  }

  lemma CarriersSend(buffers: seq<Buffer>, message: nat -> Message)
    requires AllCarry(buffers, message)
    ensures AllSendable(TCP_HEADER, MessagesOf(buffers, message), NoExtras(|buffers|))
  {
  }

  /** The packets, and the bytes, that writing these buffers puts on the wire. */
  function PacketsOf(buffers: seq<Buffer>, message: nat -> Message): seq<seq<byte>>
    requires AllCarry(buffers, message)
  {
    CarriersSend(buffers, message);
    Frames(TCP_HEADER, MessagesOf(buffers, message), NoExtras(|buffers|))
  }

  function BytesOf(buffers: seq<Buffer>, message: nat -> Message): seq<byte>
    requires AllCarry(buffers, message)
  {
    Concat(PacketsOf(buffers, message))
  }

  lemma {:induction false} CarriersAreKept(buffers: seq<Buffer>, message: nat -> Message)
    requires AllCarry(buffers, message)
    ensures NonEmpty(buffers) == buffers
  {
    hide NonEmpty;
    NoBuffers();
    if buffers != [] {
      var n := |buffers| - 1;
      CarriersAreKept(buffers[..n], message);
      assert Carries(buffers[n], message);
      assert buffers == buffers[..n] + [buffers[n]];
      NonEmptyConcat(buffers[..n], [buffers[n]]);
      OneIsKept(buffers[n]);
    }
  }

  lemma OneIsKept(b: Buffer)
    requires b.size > 0
    ensures NonEmpty([b]) == [b]
  {
    NoBuffers();
    assert [b][..0] == [];
  }

  // ---------------------------------------------------------------------------------------------
  // A stream that breaks off
  // ---------------------------------------------------------------------------------------------

  /** A prefix of a stream is parsed into a prefix of its packets. */
  lemma PrefixParses(h: HeaderSize, packets: seq<seq<byte>>, bytes: seq<byte>)
    requires forall i :: 0 <= i < |packets| ==> WellFormed(h, packets[i])
    requires bytes <= Concat(packets)
    ensures Packets(h, bytes) <= packets
    ensures bytes == Concat(packets) ==> Packets(h, bytes) == packets && Rest(h, bytes) == []
  {
    hide Packets, Rest, Concat, WellFormed;
    var more := Concat(packets)[|bytes|..];
    assert Concat(packets) == bytes + more;
    FramesRoundTrip(h, packets);
    ParseResumes(h, bytes, more);
  }

  lemma DecodePrefix(h: HeaderSize, some: seq<seq<byte>>, all: seq<seq<byte>>)
    requires forall i :: 0 <= i < |all| ==> WellFormed(h, all[i])
    requires some <= all
    ensures forall i :: 0 <= i < |some| ==> WellFormed(h, some[i])
    ensures Decode(h, some) <= Decode(h, all)
  {
    hide WellFormed, IdField;
    forall i | 0 <= i < |some| ensures some[i] == all[i] {}
    assert Decode(h, some) == Decode(h, all)[..|some|];
  }

  ghost predicate AllWellFormed(packets: seq<seq<byte>>) {
    forall i :: 0 <= i < |packets| ==> WellFormed(TCP_HEADER, packets[i])
  }

  /** What has arrived is read as the messages of the first buffers written, in order. */
  lemma StreamDecodes(buffers: seq<Buffer>, message: nat -> Message, chunks: seq<seq<byte>>)
    requires AllCarry(buffers, message) && Concat(chunks) <= BytesOf(buffers, message)
    ensures var p := ReceiveAll(TCP_HEADER, chunks);
            && AllWellFormed(p.dispatched)
            && Decode(TCP_HEADER, p.dispatched) <= MessagesOf(buffers, message)
            && (Concat(chunks) == BytesOf(buffers, message) ==>
                  Decode(TCP_HEADER, p.dispatched) == MessagesOf(buffers, message) && p.unread == [])
  {
    hide Packets, Rest, Concat, WellFormed, Frames, Decode;
    var packets := PacketsOf(buffers, message);
    CarriersSend(buffers, message);
    FramesDecode(TCP_HEADER, MessagesOf(buffers, message), NoExtras(|buffers|));
    ChunkingIsIrrelevant(TCP_HEADER, chunks);
    PrefixParses(TCP_HEADER, packets, Concat(chunks));
    DecodePrefix(TCP_HEADER, Packets(TCP_HEADER, Concat(chunks)), packets);
  }

  lemma PrefixCarries(some: seq<Buffer>, all: seq<Buffer>, message: nat -> Message)
    requires some <= all && AllCarry(all, message)
    ensures AllCarry(some, message) && MessagesOf(some, message) <= MessagesOf(all, message)
  {
    forall i | 0 <= i < |some| ensures Carries(some[i], message) { assert some[i] == all[i]; }
  }

  lemma WrittenIsPrefix(steps: seq<Step>, x: Tcp, message: nat -> Message)
    requires Run(CONNECTED, steps, x) && x.shared.connected && x.errors == 0
    requires AllCarry(x.pushed, message)
    ensures x.completed + x.hand <= x.pushed
    ensures x.shared.queue == [] ==> x.completed + x.hand == x.pushed
  {
    hide Carries, NonEmpty, Run;
    WrittenInPushOrder(steps, x);
    CarriersAreKept(x.pushed, message);
    NoBuffers();
  }

  /** In every interleaving of any number of `Send` callers with the completions, without a write error:
      however much of what was written has come through, and however it was cut, the other side has dispatched
      exactly the first messages in the order in which they were pushed; and all of them, with nothing left
      over, once the queue is empty and everything has come through. */
  lemma ArriveInPushOrder(steps: seq<Step>, x: Tcp, message: nat -> Message, chunks: seq<seq<byte>>)
    requires Run(CONNECTED, steps, x) && x.shared.connected && x.errors == 0
    requires AllCarry(x.pushed, message)
    ensures AllCarry(x.completed + x.hand, message)
    ensures Concat(chunks) <= BytesOf(x.completed + x.hand, message) ==>
              var p := ReceiveAll(TCP_HEADER, chunks);
              && AllWellFormed(p.dispatched)
              && Decode(TCP_HEADER, p.dispatched) <= MessagesOf(x.pushed, message)
              && (x.shared.queue == [] && Concat(chunks) == BytesOf(x.completed + x.hand, message) ==>
                    Decode(TCP_HEADER, p.dispatched) == MessagesOf(x.pushed, message) && p.unread == [])
  {
    hide Carries, Run, Concat, BytesOf, MessagesOf, ReceiveAll, Decode, AllCarry;
    WrittenIsPrefix(steps, x, message);
    PrefixCarries(x.completed + x.hand, x.pushed, message);
    if Concat(chunks) <= BytesOf(x.completed + x.hand, message) {
      StreamDecodes(x.completed + x.hand, message, chunks);
    }
  }

  /** The same, from caller to receiver: the messages are those handed to `Send`, in the order in which the
      callers got the lock. */
  lemma HandedMessagesArrive(steps: seq<Step>, x: Tcp, message: nat -> Message, chunks: seq<seq<byte>>)
    requires Run(CONNECTED, steps, x) && x.shared.connected && x.errors == 0
    requires AllCarry(Handed(steps), message)
    ensures AllCarry(x.completed + x.hand, message)
    ensures Concat(chunks) <= BytesOf(x.completed + x.hand, message) ==>
              var p := ReceiveAll(TCP_HEADER, chunks);
              && AllWellFormed(p.dispatched)
              && Decode(TCP_HEADER, p.dispatched) <= MessagesOf(Handed(steps), message)
              && (x.shared.queue == [] && Concat(chunks) == BytesOf(x.completed + x.hand, message) ==>
                    Decode(TCP_HEADER, p.dispatched) == MessagesOf(Handed(steps), message) && p.unread == [])
  {
    hide *;
    PushedIsHanded(steps, x);
    ArriveInPushOrder(steps, x, message, chunks);
  }

  /** With write errors too: of the writes that completed, however much has come through and however it was
      cut, the other side has dispatched exactly the first messages in the order in which they were pushed. */
  lemma ArriveDespiteErrors(steps: seq<Step>, x: Tcp, message: nat -> Message, chunks: seq<seq<byte>>)
    requires Run(CONNECTED, steps, x) && x.shared.connected && AllCarry(x.pushed, message)
    ensures AllCarry(x.completed, message)
    ensures Concat(chunks) <= BytesOf(x.completed, message) ==>
              var p := ReceiveAll(TCP_HEADER, chunks);
              && AllWellFormed(p.dispatched)
              && Decode(TCP_HEADER, p.dispatched) <= MessagesOf(x.pushed, message)
  {
    hide Carries, Run, Concat, BytesOf, MessagesOf, ReceiveAll, Decode, AllCarry, NonEmpty;
    WrittenIsFirstPushed(steps, x);
    CarriersAreKept(x.pushed, message);
    PrefixCarries(x.completed, x.pushed, message);
    if Concat(chunks) <= BytesOf(x.completed, message) {
      StreamDecodes(x.completed, message, chunks);
    }
  }

  lemma HandedArriveDespiteErrors(steps: seq<Step>, x: Tcp, message: nat -> Message, chunks: seq<seq<byte>>)
    requires Run(CONNECTED, steps, x) && x.shared.connected && AllCarry(Handed(steps), message)
    ensures AllCarry(x.completed, message)
    ensures Concat(chunks) <= BytesOf(x.completed, message) ==>
              var p := ReceiveAll(TCP_HEADER, chunks);
              && AllWellFormed(p.dispatched)
              && Decode(TCP_HEADER, p.dispatched) <= MessagesOf(Handed(steps), message)
  {
    hide *;
    PushedIsHanded(steps, x);
    ArriveDespiteErrors(steps, x, message, chunks);
  }
}
