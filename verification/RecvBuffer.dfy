/** The receive buffer and the two receive paths over it (ClientNetworkCore/RecvBuffer.cpp,
    ClientNetworkCore/Session.cpp `ProcessRecv`, ClientNetworkCore/UdpReceiver.cpp `ProcessRecv`). */
module RecvBuffer {
  import opened Framing

  const BUFFER_COUNT: nat := 10

  class RecvBuffer {
    const bufferSize: nat
    const buffer: array<byte>
    var readPos: nat
    var writePos: nat

    ghost predicate Valid()
      reads this
    {
      readPos <= writePos <= buffer.Length == bufferSize * BUFFER_COUNT
    }

    /** The bytes received and not yet consumed. */
    ghost function Unread(): seq<byte>
      requires Valid()
      reads this, buffer
    {
      buffer[readPos..writePos]
    }

    constructor (bufferSize: nat)
      ensures Valid() && fresh(buffer) && this.bufferSize == bufferSize
      ensures Unread() == [] && FreeSize() == bufferSize * 10
    {
      this.bufferSize := bufferSize;
      buffer := new byte[bufferSize * BUFFER_COUNT](_ => 0);
      readPos := 0;
      writePos := 0;
    }

    function DataSize(): nat
      requires Valid()
      reads this
    {
      writePos - readPos
    }

    function FreeSize(): nat
      requires Valid()
      reads this
    {
      buffer.Length - writePos
    }

    method OnRead(numOfBytes: nat) returns (ok: bool)
      requires Valid()
      modifies this`readPos
      ensures Valid()
      ensures ok <==> numOfBytes <= |old(Unread())|
      ensures Unread() == if ok then old(Unread())[numOfBytes..] else old(Unread())
    {
      if numOfBytes > DataSize() {
        return false;
      }
      readPos := readPos + numOfBytes;
      return true;
    }

    /** The bytes have already been put behind `writePos`; only the position moves. */
    method OnWrite(numOfBytes: nat) returns (ok: bool)
      requires Valid()
      modifies this`writePos
      ensures Valid()
      ensures ok <==> numOfBytes <= old(FreeSize())
      ensures ok ==> Unread() == old(Unread() + buffer[writePos..writePos + numOfBytes])
      ensures ok ==> FreeSize() == old(FreeSize()) - numOfBytes
      ensures !ok ==> Unread() == old(Unread()) && FreeSize() == old(FreeSize())
    {
      if numOfBytes > FreeSize() {
        return false;
      }
      writePos := writePos + numOfBytes;
      return true;
    }

    /** `Clean` is about to move the unread bytes. */
    ghost predicate Compacts()
      requires Valid()
      reads this
    {
      DataSize() > 0 && FreeSize() > bufferSize
    }

    /** Moves the unread bytes to the front, or not; they are the same bytes either way.  Room for one more
        `bufferSize` is left exactly if the buffer was drained or already had that much room: the
        comparison in the source moves the data when there is plenty of room and leaves it when there
        is not.  The copy goes upwards byte by byte, which is right even where the ranges overlap. */
    method Clean()
      requires Valid()
      modifies this`readPos, this`writePos, buffer
      ensures Valid() && Unread() == old(Unread())
      ensures FreeSize() >= old(FreeSize())
      ensures old(Unread()) == [] ==> FreeSize() == buffer.Length
      ensures old(Unread()) != [] && old(FreeSize()) <= bufferSize ==> FreeSize() == old(FreeSize())
      ensures old(Unread()) != [] && old(FreeSize()) > bufferSize ==>
                FreeSize() == buffer.Length - |old(Unread())|
      ensures FreeSize() >= bufferSize <==> old(Unread()) == [] || old(FreeSize()) >= bufferSize
    {
      var dataSize := DataSize();
      if dataSize == 0 {
        readPos := 0;
        writePos := 0;
      } else if FreeSize() > bufferSize {
        for i := 0 to dataSize
          invariant readPos == old(readPos) && writePos == old(writePos)
          invariant forall k :: 0 <= k < i ==> buffer[k] == old(buffer[readPos + k])
          invariant forall k :: i <= k < buffer.Length ==> buffer[k] == old(buffer[k])
        {
          buffer[i] := buffer[readPos + i];
        }
        assert buffer[..dataSize] == old(Unread());
        readPos := 0;
        writePos := dataSize;
      }
    }

    /** The socket's part of a receive: it writes into the free space. */
    method FillFrom(chunk: seq<byte>)
      requires Valid() && |chunk| <= FreeSize()
      modifies buffer
      ensures Valid() && Unread() == old(Unread()) && FreeSize() == old(FreeSize())
      ensures buffer[writePos..writePos + |chunk|] == chunk
    {
      forall i | 0 <= i < |chunk| {
        buffer[writePos + i] := chunk[i];
      }
    }

    /** The parsing loop of both receive paths.  `dispatched` is what `OnRecv` is called with, in order.
        The result never exceeds the data, whatever the bytes are. */
    method IsParsingPacket(h: HeaderSize) returns (processLen: nat, dispatched: seq<seq<byte>>)
      requires Valid()
      ensures processLen <= |Unread()|
      ensures dispatched == Packets(h, Unread())
      ensures Unread()[processLen..] == Rest(h, Unread())
    {
      hide SizeField, Packets, Rest;
      ghost var data := Unread();
      assert data[0..] == data;
      var len := DataSize();
      processLen := 0;
      dispatched := [];
      while true
        invariant processLen <= len
        invariant Packets(h, data) == dispatched + Packets(h, data[processLen..])
        invariant Rest(h, data) == Rest(h, data[processLen..])
        decreases len - processLen
      {
        var dataSize := len - processLen;
        ParsesOne(h, data, processLen);
        if dataSize < h {
          break;
        }
        var packetStart := readPos + processLen;
        assert buffer[packetStart..writePos] == data[processLen..];
        var size := SizeField(buffer[packetStart..writePos]);
        if dataSize < size || size < h {
          break;
        }
        assert buffer[packetStart..packetStart + size] == data[processLen..processLen + size];
        dispatched := dispatched + [buffer[packetStart..packetStart + size]];
        processLen := processLen + size;
      }
    }
  }

  /** One round of the parsing loop, `at` bytes into the data. */
  lemma ParsesOne(h: HeaderSize, data: seq<byte>, at: nat)
    requires at <= |data|
    ensures !Ready(h, data[at..]) ==> Packets(h, data[at..]) == [] && Rest(h, data[at..]) == data[at..]
    ensures Ready(h, data[at..]) ==>
              var size := SizeField(data[at..]);
              && Packets(h, data[at..]) == [data[at..at + size]] + Packets(h, data[at + size..])
              && Rest(h, data[at..]) == Rest(h, data[at + size..])
  {
    hide SizeField;
    if Ready(h, data[at..]) {
      var size := SizeField(data[at..]);
      assert data[at..][..size] == data[at..at + size] && data[at..][size..] == data[at + size..];
    }
  }

  ghost predicate Within(i: int, start: nat, n: nat) {
    start <= i < start + n
  }

  /** Where `Clean` copies from and to overlap, which `memcpy` leaves undefined, exactly if less has been read
      than is still unread. */
  lemma CopyOverlapsIff(readPos: nat, dataSize: nat)
    ensures (exists i :: Within(i, 0, dataSize) && Within(i, readPos, dataSize)) <==> readPos < dataSize
  {
    if readPos < dataSize {
      assert Within(readPos, 0, dataSize) && Within(readPos, readPos, dataSize);
    }
  }

  /** Ordinary input leads there: one receive that holds a whole packet and more than its length of the next. */
  method OverlapIsReached() returns (b: RecvBuffer)
    ensures b.Valid() && b.Compacts() && b.readPos < b.DataSize()
  {
    hide Packets, Rest;
    b := new RecvBuffer(64);
    var chunk: seq<byte> := [4, 0, 7, 0] + [9, 0, 7, 0, 1];
    b.FillFrom(chunk);
    var ok := b.OnWrite(9);
    assert b.Unread() == chunk;
    FirstOfTwo(chunk);
    var n, _ := b.IsParsingPacket(TCP_HEADER);
    assert n == 4;
    ok := b.OnRead(n);
  }

  lemma FirstOfTwo(chunk: seq<byte>)
    requires chunk == [4, 0, 7, 0] + [9, 0, 7, 0, 1]
    ensures Rest(TCP_HEADER, chunk) == [9, 0, 7, 0, 1]
  {
    assert chunk[4..] == [9, 0, 7, 0, 1];
  }

  /** What both `ProcessRecv`s do once the bytes are in: parse, consume, clean. */
  method ParseAndClean(b: RecvBuffer, h: HeaderSize) returns (ok: bool, dispatched: seq<seq<byte>>)
    requires b.Valid()
    modifies b, b.buffer
    ensures b.Valid() && ok
    ensures dispatched == Packets(h, old(b.Unread())) && b.Unread() == Rest(h, old(b.Unread()))
    ensures b.Unread() != [] && old(b.FreeSize()) <= b.bufferSize ==> b.FreeSize() == old(b.FreeSize())
  {
    var dataSize := b.DataSize();
    var processLen;
    processLen, dispatched := b.IsParsingPacket(h);
    ok := b.OnRead(processLen);
    if processLen < 0 || dataSize < processLen || !ok {
      ok := false;
      return;
    }
    b.Clean();
  }

  /** The receive half of a TCP session. */
  class TcpReceiver {
    const recvBuffer: RecvBuffer
    var connected: bool
    /** The packets `OnRecv` has been called with. */
    var dispatched: seq<seq<byte>>

    ghost predicate Valid()
      reads this, recvBuffer
    {
      recvBuffer.Valid()
    }

    ghost function View(): Progress
      requires Valid()
      reads this, recvBuffer, recvBuffer.buffer
    {
      Progress(dispatched, recvBuffer.Unread())
    }

    constructor (bufferSize: nat)
      ensures Valid() && fresh(recvBuffer) && fresh(recvBuffer.buffer)
      ensures View() == NOTHING && connected && recvBuffer.bufferSize == bufferSize
    {
      recvBuffer := new RecvBuffer(bufferSize);
      connected := true;
      dispatched := [];
    }

    /** One completed receive.  A chunk that fits is absorbed without a disconnect, so of the three
        disconnects in `ProcessRecv` only the empty receive can happen; the "OnRead Overflow" one never
        does, whatever the bytes are.  The last clause is the price of `Clean`: once unread bytes are
        pending with little room behind them, room is never regained while bytes stay pending. */
    method Receive(chunk: seq<byte>)
      requires Valid() && |chunk| <= recvBuffer.FreeSize()
      modifies this, recvBuffer, recvBuffer.buffer
      ensures Valid()
      ensures chunk == [] ==> !connected && View() == old(View())
      ensures chunk != [] ==> connected == old(connected)
      ensures chunk != [] ==> View() == Framing.Receive(TCP_HEADER, old(View()), chunk)
      ensures chunk != [] && View().unread != [] &&
                old(recvBuffer.FreeSize()) - |chunk| <= recvBuffer.bufferSize ==>
                recvBuffer.FreeSize() == old(recvBuffer.FreeSize()) - |chunk|
    {
      recvBuffer.FillFrom(chunk);
      ProcessRecv(|chunk|);
    }

    method ProcessRecv(numOfBytes: nat)
      requires Valid()
      modifies this, recvBuffer, recvBuffer.buffer
      ensures Valid()
      ensures numOfBytes == 0 || numOfBytes > old(recvBuffer.FreeSize()) ==>
                !connected && View() == old(View())
      ensures 0 < numOfBytes <= old(recvBuffer.FreeSize()) ==>
                connected == old(connected) &&
                View() == Framing.Receive(TCP_HEADER, old(View()),
                  old(recvBuffer.buffer[recvBuffer.writePos..recvBuffer.writePos + numOfBytes]))
      ensures 0 < numOfBytes <= old(recvBuffer.FreeSize()) && View().unread != [] &&
                old(recvBuffer.FreeSize()) - numOfBytes <= recvBuffer.bufferSize ==>
                recvBuffer.FreeSize() == old(recvBuffer.FreeSize()) - numOfBytes
    {
      hide Packets, Rest;
      if numOfBytes == 0 {
        connected := false;
        return;
      }
      var ok := recvBuffer.OnWrite(numOfBytes);
      if !ok {
        connected := false;
        return;
      }
      var read, packets := ParseAndClean(recvBuffer, TCP_HEADER);
      dispatched := dispatched + packets;
      connected := connected && read;
    }
  }

  /** The UDP receiver: the same loop with the larger header over one buffer shared by every peer. */
  class UdpReceiver {
    const recvBuffer: RecvBuffer
    var dispatched: seq<seq<byte>>

    ghost predicate Valid()
      reads this, recvBuffer
    {
      recvBuffer.Valid()
    }

    ghost function View(): Progress
      requires Valid()
      reads this, recvBuffer, recvBuffer.buffer
    {
      Progress(dispatched, recvBuffer.Unread())
    }

    constructor (bufferSize: nat)
      ensures Valid() && fresh(recvBuffer) && fresh(recvBuffer.buffer) && View() == NOTHING
    {
      recvBuffer := new RecvBuffer(bufferSize);
      dispatched := [];
    }

    /** Fails, and so stops listening, only if the datagram did not fit. */
    method ProcessRecv(numOfBytes: nat) returns (ok: bool)
      requires Valid()
      modifies this, recvBuffer, recvBuffer.buffer
      ensures Valid()
      ensures ok <==> numOfBytes <= old(recvBuffer.FreeSize())
      ensures !ok ==> View() == old(View())
      ensures ok ==> View() == Framing.Receive(UDP_HEADER, old(View()),
                old(recvBuffer.buffer[recvBuffer.writePos..recvBuffer.writePos + numOfBytes]))
    {
      hide Packets, Rest;
      ok := recvBuffer.OnWrite(numOfBytes);
      if !ok {
        return false;
      }
      var packets;
      ok, packets := ParseAndClean(recvBuffer, UDP_HEADER);
      dispatched := dispatched + packets;
    }
  }

  /** The whole receive path over the real buffer: any list of non-empty receives that each fit the room
      left is parsed like the concatenated stream, and never disconnects. */
  method ReceiveStream(receiver: TcpReceiver, chunks: seq<seq<byte>>) returns (taken: nat)
    requires receiver.Valid() && receiver.connected && receiver.View() == NOTHING
    requires forall i :: 0 <= i < |chunks| ==> chunks[i] != []
    modifies receiver, receiver.recvBuffer, receiver.recvBuffer.buffer
    ensures taken <= |chunks| && receiver.Valid() && receiver.connected
    ensures taken < |chunks| ==> |chunks[taken]| > receiver.recvBuffer.FreeSize()
    ensures receiver.View() == Progress(Packets(TCP_HEADER, Concat(chunks[..taken])),
                                        Rest(TCP_HEADER, Concat(chunks[..taken])))
  {
    taken := 0;
    while taken < |chunks| && |chunks[taken]| <= receiver.recvBuffer.FreeSize()
      invariant taken <= |chunks| && receiver.Valid() && receiver.connected
      invariant receiver.View() == ReceiveAll(TCP_HEADER, chunks[..taken])
    {
      receiver.Receive(chunks[taken]);
      assert chunks[..taken + 1][..taken] == chunks[..taken];
      taken := taken + 1;
    }
    ChunkingIsIrrelevant(TCP_HEADER, chunks[..taken]);
  }
}
