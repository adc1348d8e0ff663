/** Length-prefixed packet framing: the parser of both receive paths and the printer of
    `MakeSendBufferImpl` (ClientNetworkCore/Session.cpp, ClientNetworkCore/UdpReceiver.cpp,
    DummyClient/ServerPacketHandler.h).  A header starts with a 16-bit size and a 16-bit id, low byte
    first; `h` is the size of the whole header. */
module Framing {

  type byte = b: int | 0 <= b < 256

  const TCP_HEADER: nat := 4
  const UDP_HEADER: nat := 6

  type HeaderSize = h: nat | h >= 4 witness 4

  function SizeField(bytes: seq<byte>): nat
    requires |bytes| >= 4
  {
    bytes[0] as int + 256 * bytes[1] as int
  }

  function IdField(bytes: seq<byte>): nat
    requires |bytes| >= 4
  {
    bytes[2] as int + 256 * bytes[3] as int
  }

  // ---------------------------------------------------------------------------------------------
  // The parser
  // ---------------------------------------------------------------------------------------------

  /** The test at the head of the parsing loop: a whole header, a sane size, and all its bytes. */
  predicate Ready(h: HeaderSize, bytes: seq<byte>) {
    |bytes| >= h && h <= SizeField(bytes) <= |bytes|
  }

  /** The packets the loop dispatches. */
  function Packets(h: HeaderSize, bytes: seq<byte>): seq<seq<byte>>
    decreases |bytes|
  {
    if Ready(h, bytes) then
      [bytes[..SizeField(bytes)]] + Packets(h, bytes[SizeField(bytes)..])
    else []
  }

  /** The bytes the loop leaves unread. */
  function Rest(h: HeaderSize, bytes: seq<byte>): seq<byte>
    decreases |bytes|
  {
    if Ready(h, bytes) then Rest(h, bytes[SizeField(bytes)..]) else bytes
  }

  function Concat(parts: seq<seq<byte>>): seq<byte> {
    if parts == [] then [] else parts[0] + Concat(parts[1..])
  }

  /** A well-formed packet: its size field is its length and covers the header. */
  predicate WellFormed(h: HeaderSize, packet: seq<byte>) {
    |packet| >= h && SizeField(packet) == |packet|
  }

  /** What a parse of `bytes` should be, without saying how to find it: well-formed packets followed by a
      remainder that does not start with one. */
  ghost predicate IsParse(h: HeaderSize, bytes: seq<byte>, packets: seq<seq<byte>>, rest: seq<byte>) {
    && bytes == Concat(packets) + rest
    && (forall i :: 0 <= i < |packets| ==> WellFormed(h, packets[i]))
    && !Ready(h, rest)
  }

  lemma SizeOfPrefix(bytes: seq<byte>, n: nat)
    requires 4 <= n <= |bytes|
    ensures SizeField(bytes[..n]) == SizeField(bytes)
  {
  }

  lemma OneMorePacket(h: HeaderSize, packet: seq<byte>, tail: seq<byte>, packets: seq<seq<byte>>, rest: seq<byte>)
    requires WellFormed(h, packet) && IsParse(h, tail, packets, rest)
    ensures IsParse(h, packet + tail, [packet] + packets, rest)
  {
    hide WellFormed, Ready;
    assert ([packet] + packets)[1..] == packets;
    assert packet + (Concat(packets) + rest) == packet + Concat(packets) + rest;
  }

  lemma {:induction false} ParseIsParse(h: HeaderSize, bytes: seq<byte>)
    ensures IsParse(h, bytes, Packets(h, bytes), Rest(h, bytes))
    decreases |bytes|
  {
    hide SizeField;
    if Ready(h, bytes) {
      var n := SizeField(bytes);
      SizeOfPrefix(bytes, n);
      ParseIsParse(h, bytes[n..]);
      OneMorePacket(h, bytes[..n], bytes[n..], Packets(h, bytes[n..]), Rest(h, bytes[n..]));
      assert bytes[..n] + bytes[n..] == bytes;
    }
  }

  /** The loop finds the only parse there is. */
  lemma {:induction false} ParseIsUnique(h: HeaderSize, bytes: seq<byte>, packets: seq<seq<byte>>, rest: seq<byte>)
    requires IsParse(h, bytes, packets, rest)
    ensures packets == Packets(h, bytes) && rest == Rest(h, bytes)
    decreases |packets|
  {
    if packets != [] {
      var packet, tail := packets[0], Concat(packets[1..]) + rest;
      assert bytes == packet + tail;
      assert SizeField(bytes) == SizeField(packet) == |packet|;
      assert bytes[..|packet|] == packet && bytes[|packet|..] == tail;
      assert IsParse(h, tail, packets[1..], rest);
      ParseIsUnique(h, tail, packets[1..], rest);
    } else {
      assert bytes == rest;
    }
  }

  lemma ConcatAppend(a: seq<seq<byte>>, b: seq<seq<byte>>)
    ensures Concat(a + b) == Concat(a) + Concat(b)
  {
    if a == [] {
      assert a + b == b;
    } else {
      assert (a + b)[0] == a[0] && (a + b)[1..] == a[1..] + b;
      ConcatAppend(a[1..], b);
    }
  }

  /** Parsing can stop anywhere and resume later: parse a prefix, keep its unread bytes, and continue with
      what arrives next. */
  lemma ParseResumes(h: HeaderSize, first: seq<byte>, more: seq<byte>)
    ensures Packets(h, first + more) == Packets(h, first) + Packets(h, Rest(h, first) + more)
    ensures Rest(h, first + more) == Rest(h, Rest(h, first) + more)
  {
    hide Packets, Rest, Concat, Ready, WellFormed;
    ParseIsParse(h, first);
    var middle := Rest(h, first) + more;
    ParseIsParse(h, middle);
    var done, next := Packets(h, first), Packets(h, middle);
    ConcatAppend(done, next);
    assert first + more == Concat(done) + middle;
    assert Concat(done) + middle == Concat(done) + Concat(next) + Rest(h, middle);
    ParseIsUnique(h, first + more, done + next, Rest(h, middle));
  }

  /** What a receive path has dispatched so far, and its unread bytes. */
  datatype Progress = Progress(dispatched: seq<seq<byte>>, unread: seq<byte>)

  const NOTHING: Progress := Progress([], [])

  /** One receive of `chunk`. */
  function Receive(h: HeaderSize, p: Progress, chunk: seq<byte>): Progress {
    Progress(p.dispatched + Packets(h, p.unread + chunk), Rest(h, p.unread + chunk))
  }

  function ReceiveAll(h: HeaderSize, chunks: seq<seq<byte>>): Progress {
    if chunks == [] then NOTHING
    else Receive(h, ReceiveAll(h, chunks[..|chunks| - 1]), chunks[|chunks| - 1])
  }

  /** Chunking independence: however the stream was cut into receives, the packets dispatched and the
      bytes left are those of one parse of the whole stream, malformed sizes included. */
  lemma {:induction false} ChunkingIsIrrelevant(h: HeaderSize, chunks: seq<seq<byte>>)
    ensures ReceiveAll(h, chunks) == Progress(Packets(h, Concat(chunks)), Rest(h, Concat(chunks)))
  {
    if chunks == [] {
    } else {
      var n := |chunks| - 1;
      ChunkingIsIrrelevant(h, chunks[..n]);
      var before := Concat(chunks[..n]);
      ConcatAppend(chunks[..n], [chunks[n]]);
      assert chunks == chunks[..n] + [chunks[n]];
      assert Concat([chunks[n]]) == chunks[n];
      ParseResumes(h, before, chunks[n]);
    }
  }

  /** The size field of what is unread is there and smaller than a header. */
  predicate Malformed(h: HeaderSize, rest: seq<byte>) {
    |rest| >= 2 && rest[0] as int + 256 * rest[1] as int < h
  }

  lemma MalformedIsNeverReady(h: HeaderSize, rest: seq<byte>, more: seq<byte>)
    requires Malformed(h, rest)
    ensures Packets(h, rest + more) == [] && Rest(h, rest + more) == rest + more
  {
    assert (rest + more)[0] == rest[0] && (rest + more)[1] == rest[1];
  }

  /** Bytes that complete an unfinished packet whose size can still be, or is, large enough. */
  lemma Completion(h: HeaderSize, rest: seq<byte>) returns (more: seq<byte>)
    requires !Ready(h, rest) && !Malformed(h, rest) && h <= 65280
    ensures Ready(h, rest + more)
  {
    var head: seq<byte> := if |rest| == 0 then [255, 255] else if |rest| == 1 then [255] else [];
    var start := rest + head;
    var size := start[0] as int + 256 * start[1] as int;
    var n := if size > |start| then size - |start| else 0;
    more := head + seq(n, _ => 0);
    var all := rest + more;
    assert all == start + seq(n, _ => 0);
    assert all[0] == start[0] && all[1] == start[1];
    assert |all| >= size >= h;
  }

  /** What is left unread stops the parser for good, whatever bytes come later, exactly if its size field is
      there and smaller than a header. */
  lemma StopsForeverIffMalformed(h: HeaderSize, rest: seq<byte>)
    requires !Ready(h, rest) && h <= 65280
    ensures (forall more: seq<byte> :: Packets(h, rest + more) == []) <==> Malformed(h, rest)
  {
    if Malformed(h, rest) {
      forall more: seq<byte> ensures Packets(h, rest + more) == [] { MalformedIsNeverReady(h, rest, more); }
    } else {
      var more := Completion(h, rest);
      assert Packets(h, rest + more) != [];
    }
  }

  // ---------------------------------------------------------------------------------------------
  // The printer
  // ---------------------------------------------------------------------------------------------

  /** A packet as `MakeSendBufferImpl` lays it out.  `extra` is what the header holds after the id; the
      printer does not write it. */
  function Frame(h: HeaderSize, id: nat, extra: seq<byte>, payload: seq<byte>): seq<byte>
    requires |extra| == h - 4 && h + |payload| < 65536 && id < 65536
  {
    var size := h + |payload|;
    [size % 256, size / 256, id % 256, id / 256] + extra + payload
  }

  lemma FrameFields(h: HeaderSize, id: nat, extra: seq<byte>, payload: seq<byte>)
    requires |extra| == h - 4 && h + |payload| < 65536 && id < 65536
    ensures var f := Frame(h, id, extra, payload);
      WellFormed(h, f) && IdField(f) == id && f[h..] == payload
  {
  }

  /** The bytes of a packet: size, then id, low byte first, then the rest of the header and the payload; the
      headers are four bytes for TCP and six for UDP. */
  lemma FrameFormat(h: HeaderSize, id: nat, extra: seq<byte>, payload: seq<byte>)
    requires |extra| == h - 4 && h + |payload| < 65536 && id < 65536
    ensures var f := Frame(h, id, extra, payload);
      && |f| == h + |payload|
      && f[0] as int + 256 * f[1] as int == |f| && f[2] as int + 256 * f[3] as int == id
      && f[4..h] == extra && f[h..] == payload
      && SizeField(f) == |f| && IdField(f) == id
    ensures TCP_HEADER == 4 && UDP_HEADER == 6
  {
  }

  /** Round trip: any list of well-formed packets, written one after the other, is parsed back into
      exactly that list and every byte is consumed. */
  lemma FramesRoundTrip(h: HeaderSize, packets: seq<seq<byte>>)
    requires forall i :: 0 <= i < |packets| ==> WellFormed(h, packets[i])
    ensures Packets(h, Concat(packets)) == packets && Rest(h, Concat(packets)) == []
  {
    assert Concat(packets) == Concat(packets) + [];
    ParseIsUnique(h, Concat(packets), packets, []);
  }

  datatype Message = Message(id: nat, payload: seq<byte>)

  predicate Sendable(h: HeaderSize, m: Message) {
    m.id < 65536 && h + |m.payload| < 65536
  }

  /** The messages a receiver reads out of dispatched packets. */
  function Decode(h: HeaderSize, packets: seq<seq<byte>>): seq<Message>
    requires forall i :: 0 <= i < |packets| ==> WellFormed(h, packets[i])
  {
    seq(|packets|, i requires 0 <= i < |packets| && WellFormed(h, packets[i]) =>
      Message(IdField(packets[i]), packets[i][h..]))
  }

  ghost predicate AllSendable(h: HeaderSize, messages: seq<Message>, extras: seq<seq<byte>>) {
    && |extras| == |messages|
    && forall i :: 0 <= i < |messages| ==> Sendable(h, messages[i]) && |extras[i]| == h - 4
  }

  function Frames(h: HeaderSize, messages: seq<Message>, extras: seq<seq<byte>>): seq<seq<byte>>
    requires AllSendable(h, messages, extras)
  {
    if messages == [] then []
    else
      [Frame(h, messages[0].id, extras[0], messages[0].payload)] + Frames(h, messages[1..], extras[1..])
  }

  lemma {:induction false} FramesDecode(h: HeaderSize, messages: seq<Message>, extras: seq<seq<byte>>)
    requires AllSendable(h, messages, extras)
    ensures forall i :: 0 <= i < |Frames(h, messages, extras)| ==>
              WellFormed(h, Frames(h, messages, extras)[i])
    ensures Decode(h, Frames(h, messages, extras)) == messages
  {
    hide Frame, SizeField, IdField;
    if messages != [] {
      FramesDecode(h, messages[1..], extras[1..]);
      FrameFields(h, messages[0].id, extras[0], messages[0].payload);
      var frames := Frames(h, messages, extras);
      assert frames[1..] == Frames(h, messages[1..], extras[1..]);
      forall i | 0 < i < |frames| ensures frames[i] == frames[1..][i - 1] {}
      assert Decode(h, frames) == [messages[0]] + Decode(h, frames[1..]);
    }
  }

  /** End to end: whatever messages are framed, whatever the unwritten header bytes are, and however the
      stream is cut, the receiver dispatches packets that decode to exactly those messages in order. */
  lemma MessagesArrive(h: HeaderSize, messages: seq<Message>, extras: seq<seq<byte>>, chunks: seq<seq<byte>>)
    requires AllSendable(h, messages, extras)
    requires Concat(chunks) == Concat(Frames(h, messages, extras))
    ensures var p := ReceiveAll(h, chunks);
      && p.unread == []
      && (forall i :: 0 <= i < |p.dispatched| ==> WellFormed(h, p.dispatched[i]))
      && Decode(h, p.dispatched) == messages
  {
    hide Frame, SizeField, IdField;
    var frames := Frames(h, messages, extras);
    FramesDecode(h, messages, extras);
    FramesRoundTrip(h, frames);
    ChunkingIsIrrelevant(h, chunks);
  }
}
