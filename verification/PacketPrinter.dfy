/** `MakeSendBufferImpl` over the whole allocator: which payloads it prints, what the buffer then holds, and
    where the header bytes it does not write come from (DummyClient/ServerPacketHandler.h,
    ClientNetworkCore/SendBuffer.cpp). */
module PacketPrinter {
  import opened Framing
  import opened SendBuffers

  /** `Overrun`: the sixteen-bit packet size has wrapped, and the payload goes past the buffer. */
  datatype Outcome = Printed(b: BufferId) | Crashed | Overrun

  function DataSize(payload: seq<byte>): nat {
    |payload| % 65536
  }

  function PacketSize(h: HeaderSize, payload: seq<byte>): nat {
    (DataSize(payload) + h) % 65536
  }

  /** The stores: size, id and payload, but nothing in between. */
  function Store(memory: seq<byte>, at: nat, h: HeaderSize, id: nat, payload: seq<byte>): seq<byte>
    requires id < 65536 && h + |payload| < 65536 && at + h + |payload| <= |memory|
  {
    var n := h + |payload|;
    memory[..at] + Frame(h, id, memory[at + 4..at + h], payload) + memory[at + n..]
  }

  function StoreIn(g: Heap, b: BufferId, h: HeaderSize, id: nat, payload: seq<byte>): Heap
    requires b in g.live && id < 65536 && h + |payload| < 65536
  {
    var buffer := g.live[b];
    var chunk := ChunkAt(g, buffer.owner);
    if buffer.offset + h + |payload| > |chunk.memory| then g
    else g.(chunks := g.chunks[buffer.owner := chunk.(memory := Store(chunk.memory, buffer.offset, h, id, payload))])
  }

  /** After a crash nothing happens; after an overrun nothing is promised. */
  function MakeSendBuffer(heap: Heap, t: ThreadId, h: HeaderSize, id: nat, payload: seq<byte>): (Heap, Outcome)
    requires id < 65536
  {
    var b, g := heap.nextBuffer, OpenBuffer(heap, t, PacketSize(h, payload));
    if g.crashed || b !in g.live then (g, Crashed)
    else if DataSize(payload) < |payload| then (g.(crashed := true), Crashed)
    else if PacketSize(h, payload) < h + |payload| then (g, Overrun)
    else (CloseBuffer(StoreIn(g, b, h, id, payload), b, PacketSize(h, payload)), Printed(b))
  }

  lemma StoreInIs(g: Heap, b: BufferId, h: HeaderSize, id: nat, payload: seq<byte>)
    requires Inv(g) && b in g.live && !g.live[b].closed && id < 65536 && h + |payload| < 65536
    requires g.live[b].allocSize == h + |payload|
    ensures g.live[b].owner in g.chunks
    ensures var c, at := g.live[b].owner, g.live[b].offset;
            && at + h + |payload| <= |g.chunks[c].memory|
            && StoreIn(g, b, h, id, payload)
            == g.(chunks := g.chunks[c := g.chunks[c].(memory := Store(g.chunks[c].memory, at, h, id, payload))])
  {
    hide Store;
    assert Placed(g, g.live[b]);
  }

  lemma SizesAre(h: HeaderSize, payload: seq<byte>)
    ensures DataSize(payload) < |payload| <==> |payload| >= 65536
    ensures h + |payload| < 65536 ==> PacketSize(h, payload) == h + |payload|
    ensures |payload| < 65536 <= h + |payload| && h <= 65536 ==> PacketSize(h, payload) == h + |payload| - 65536
  {
  }

  ghost predicate HasOpenBuffer(heap: Heap, t: ThreadId) {
    t in heap.local && ChunkAt(heap, heap.local[t]).open
  }

  lemma StoreInPlace(memory: seq<byte>, at: nat, h: HeaderSize, id: nat, payload: seq<byte>)
    requires id < 65536 && h + |payload| < 65536 && at + h + |payload| <= |memory|
    ensures var s, n := Store(memory, at, h, id, payload), h + |payload|;
            && |s| == |memory|
            && s[at..at + n] == Frame(h, id, memory[at + 4..at + h], payload)
            && s[..at] == memory[..at] && s[at + n..] == memory[at + n..]
            && (forall i :: 0 <= i < |s| && !(at <= i < at + n) ==> s[i] == memory[i])
  {
    hide Frame;
    FrameLength(h, id, memory[at + 4..at + h], payload);
  }

  lemma FrameLength(h: HeaderSize, id: nat, extra: seq<byte>, payload: seq<byte>)
    requires id < 65536 && h + |payload| < 65536 && |extra| == h - 4
    ensures |Frame(h, id, extra, payload)| == h + |payload|
  {
  }

  /** The heap with other bytes in chunk `c`. */
  function WithMemory(g: Heap, c: ChunkId, memory: seq<byte>): Heap
    requires c in g.chunks
  {
    g.(chunks := g.chunks[c := g.chunks[c].(memory := memory)])
  }

  lemma MemoryKeepsInv(g: Heap, c: ChunkId, memory: seq<byte>)
    requires Inv(g) && c in g.chunks && |memory| == CHUNK_SIZE
    ensures Inv(WithMemory(g, c, memory))
    ensures forall a :: a in g.live ==> Placed(g, g.live[a]) && Placed(WithMemory(g, c, memory), g.live[a])
  {
    hide Disjoint;
    forall a | a in g.live ensures Placed(WithMemory(g, c, memory), g.live[a]) { assert Placed(g, g.live[a]); }
  }

  /** A buffer whose own bytes are the same in the new memory keeps its content. */
  lemma MemoryKeepsContent(g: Heap, c: ChunkId, memory: seq<byte>, a: BufferId)
    requires Inv(g) && c in g.chunks && |memory| == CHUNK_SIZE && a in g.live
    requires g.live[a].owner == c ==>
      forall i :: g.live[a].offset <= i < g.live[a].offset + Extent(g.live[a]) ==>
        i < CHUNK_SIZE && g.chunks[c].memory[i] == memory[i]
    ensures SameBuffer(g, WithMemory(g, c, memory), a)
  {
    MemoryKeepsInv(g, c, memory);
    hide Inv, Disjoint;
    ChunksAreValid(g);
    ChunksAreValid(WithMemory(g, c, memory));
  }

  lemma ChunksAreValid(g: Heap)
    requires Inv(g)
    ensures ChunksValid(g)
  {
  }

  /** Where buffer `b` is in its chunk. */
  lemma BufferIsInside(g: Heap, b: BufferId)
    requires Inv(g) && b in g.live
    ensures g.live[b].owner in g.chunks && |g.chunks[g.live[b].owner].memory| == CHUNK_SIZE
    ensures g.live[b].offset + Extent(g.live[b]) <= CHUNK_SIZE
    ensures Placed(g, g.live[b]) && ChunksValid(g)
    ensures Content(g, g.live[b])
         == g.chunks[g.live[b].owner].memory[g.live[b].offset..g.live[b].offset + Extent(g.live[b])]
    ensures forall a :: a in g.live && a != b ==> Disjoint(g.live[a], g.live[b])
  {
    assert Placed(g, g.live[b]);
  }

  lemma StoreKeepsInv(g: Heap, b: BufferId, h: HeaderSize, id: nat, payload: seq<byte>)
    requires Inv(g) && b in g.live && !g.live[b].closed && id < 65536 && h + |payload| < 65536
    requires g.live[b].allocSize == h + |payload|
    ensures var g' := StoreIn(g, b, h, id, payload);
            && Inv(g') && g' == g.(chunks := g'.chunks)
            && Placed(g, g.live[b]) && Placed(g', g.live[b])
            && Content(g', g.live[b]) == Frame(h, id, Content(g, g.live[b])[4..h], payload)
            && (forall a :: a in g.live && a != b ==> SameBuffer(g, g', a))
  {
    hide Frame, Store, Inv, SameBuffer, Placed, Content;
    var c, at, n := g.live[b].owner, g.live[b].offset, h + |payload|;
    BufferIsInside(g, b);
    var memory := g.chunks[c].memory;
    var memory' := Store(memory, at, h, id, payload);
    StoreInPlace(memory, at, h, id, payload);
    var g' := StoreIn(g, b, h, id, payload);
    assert g' == WithMemory(g, c, memory');
    MemoryKeepsInv(g, c, memory');
    BufferIsInside(g', b);
    SliceOfSlice(memory, at, n, h);
    forall a | a in g.live && a != b ensures SameBuffer(g, g', a) {
      BufferIsInside(g, a);
      MemoryKeepsContent(g, c, memory', a);
    }
  }

  lemma SliceOfSlice(memory: seq<byte>, at: nat, size: nat, h: nat)
    requires at + size <= |memory| && 4 <= h <= size
    ensures memory[at..at + size][4..h] == memory[at + 4..at + h]
  {
    var whole := memory[at..at + size];
    forall i | 0 <= i < h - 4 ensures whole[4..h][i] == memory[at + 4..at + h][i] {
      assert whole[4..h][i] == whole[4 + i];
    }
  }

  lemma CloseKeepsOwnContent(g: Heap, b: BufferId, n: nat)
    requires Inv(g) && !g.crashed && b in g.live && !g.live[b].closed && n == g.live[b].allocSize
    ensures var g' := CloseBuffer(g, b, n);
            && Inv(g') && !g'.crashed && g'.live == g.live[b := g.live[b].(writeSize := n, closed := true)]
            && Placed(g, g.live[b]) && Placed(g', g'.live[b])
            && Content(g', g'.live[b]) == Content(g, g.live[b])
  {
    CloseKeepsInv(g, b, n);
    assert Placed(g, g.live[b]);
    var g' := CloseBuffer(g, b, n);
    assert Placed(g', g'.live[b]);
  }

  lemma SameTwice(h: Heap, m: Heap, g: Heap, a: BufferId)
    requires SameBuffer(h, m, a) && SameBuffer(m, g, a)
    ensures SameBuffer(h, g, a)
  {
  }

  /** What the printer's header held between the id and the payload when the buffer was opened. */
  ghost function Unwritten(heap: Heap, t: ThreadId, h: HeaderSize, size: nat): seq<byte>
    requires Inv(heap) && size >= h
  {
    var g, b := OpenBuffer(heap, t, size), heap.nextBuffer;
    OpenKeepsInv(heap, t, size);
    if b in g.live && Extent(g.live[b]) == size then
      assert Placed(g, g.live[b]);
      Content(g, g.live[b])[4..h]
    else []
  }

  lemma OpenedBuffer(heap: Heap, t: ThreadId, size: nat)
    requires Inv(heap) && !heap.crashed
    ensures var g, b := OpenBuffer(heap, t, size), heap.nextBuffer;
            && Inv(g)
            && (g.crashed <==> size > CHUNK_SIZE || HasOpenBuffer(heap, t))
            && (!g.crashed ==>
                  && b in g.live && !g.live[b].closed && g.live[b].allocSize == size
                  && g.live.Keys == heap.live.Keys + {b}
                  && forall a :: a in heap.live ==> a < b && a in g.live && SameBuffer(heap, g, a))
  {
    hide OpenBuffer, SameBuffer, Placed, Disjoint;
    OpenAlwaysDelivers(heap, t, size);
    OpenKeepsInv(heap, t, size);
    OwnersAreChunks(heap);
    OpenKeepsBuffers(heap, t, size);
    forall a | a in heap.live ensures a < heap.nextBuffer && a in OpenBuffer(heap, t, size).live
      && SameBuffer(heap, OpenBuffer(heap, t, size), a)
    {
      OpenKeepsContent(heap, t, size, a);
    }
  }

  lemma ContentLength(g: Heap, b: BufferId)
    requires Inv(g) && b in g.live
    ensures Placed(g, g.live[b]) && |Content(g, g.live[b])| == Extent(g.live[b])
  {
    assert Placed(g, g.live[b]);
  }

  lemma PrintInto(g: Heap, b: BufferId, h: HeaderSize, id: nat, payload: seq<byte>)
    requires Inv(g) && !g.crashed && b in g.live && !g.live[b].closed && id < 65536
    requires g.live[b].allocSize == h + |payload| < 65536
    ensures Placed(g, g.live[b])
    ensures b in StoreIn(g, b, h, id, payload).live
    ensures |Content(g, g.live[b])| == h + |payload|
    ensures var n := h + |payload|;
            var g' := CloseBuffer(StoreIn(g, b, h, id, payload), b, n);
            && Inv(g') && !g'.crashed && g'.live == g.live[b := g.live[b].(writeSize := n, closed := true)]
            && Placed(g', g'.live[b])
            && Content(g', g'.live[b]) == Frame(h, id, Content(g, g.live[b])[4..h], payload)
            && (forall a :: a in g.live && a != b ==> SameBuffer(g, g', a))
  {
    hide StoreIn, CloseBuffer, Inv, Placed, Frame, SameBuffer;
    var n, s := h + |payload|, StoreIn(g, b, h, id, payload);
    StoreKeepsInv(g, b, h, id, payload);
    ContentLength(g, b);
    CloseKeepsOwnContent(s, b, n);
    forall a | a in g.live && a != b ensures SameBuffer(g, CloseBuffer(s, b, n), a) {
      CloseKeepsContent(s, b, n, a);
      SameTwice(g, s, CloseBuffer(s, b, n), a);
    }
  }

  /** For every payload whatever: it is printed exactly if the packet fits a chunk and the thread has no
      buffer open; the buffer is then closed at its full size and holds the packet, in which only the header
      bytes after the id are whatever the chunk held; and no other live buffer changes.  From 65536 bytes on
      the payload is refused, and just below that the packet size wraps. */
  lemma PrintsExactly(heap: Heap, t: ThreadId, h: HeaderSize, id: nat, payload: seq<byte>)
    requires Inv(heap) && !heap.crashed && id < 65536 && h <= CHUNK_SIZE
    ensures var (g, r) := MakeSendBuffer(heap, t, h, id, payload);
            && (r.Printed? <==> h + |payload| <= 6000 && !HasOpenBuffer(heap, t))
            && (r.Overrun? <==> |payload| < 65536 <= h + |payload| && !HasOpenBuffer(heap, t))
            && (r.Crashed? ==> g.crashed)
            && (r.Printed? ==>
                  && r.b == heap.nextBuffer && Inv(g) && !g.crashed && r.b in g.live
                  && g.live[r.b].closed && g.live[r.b].writeSize == h + |payload| && Placed(g, g.live[r.b])
                  && |Unwritten(heap, t, h, h + |payload|)| == h - 4
                  && Content(g, g.live[r.b]) == Frame(h, id, Unwritten(heap, t, h, h + |payload|), payload)
                  && (forall a :: a in heap.live ==> SameBuffer(heap, g, a)))
  {
    hide OpenBuffer, StoreIn, CloseBuffer, Inv, Frame, SameBuffer, HasOpenBuffer;
    SizesAre(h, payload);
    var size, b := PacketSize(h, payload), heap.nextBuffer;
    OpenedBuffer(heap, t, size);
    var g := OpenBuffer(heap, t, size);
    if !g.crashed && size == h + |payload| {
      PrintInto(g, b, h, id, payload);
      var g' := CloseBuffer(StoreIn(g, b, h, id, payload), b, size);
      forall a | a in heap.live ensures SameBuffer(heap, g', a) {
        SameTwice(heap, g, g', a);
      }
    }
  }

  // ---------------------------------------------------------------------------------------------
  // Stale sequence numbers
  // ---------------------------------------------------------------------------------------------

  /** Opening writes nothing: the bytes left unwritten are the ones the chunk held, whoever held it before. */
  lemma UnwrittenAreOldBytes(heap: Heap, t: ThreadId, h: HeaderSize, size: nat, c: ChunkId)
    requires Inv(heap) && !heap.crashed && h <= size <= CHUNK_SIZE && !HasOpenBuffer(heap, t) && c in heap.chunks
    requires var g := OpenBuffer(heap, t, size);
             heap.nextBuffer in g.live && g.live[heap.nextBuffer].owner == c
    ensures var at := OpenBuffer(heap, t, size).live[heap.nextBuffer].offset;
            && at + h <= |heap.chunks[c].memory|
            && Unwritten(heap, t, h, size) == heap.chunks[c].memory[at + 4..at + h]
  {
    hide OpenBuffer, Inv, SameBuffer;
    OpenedBuffer(heap, t, size);
    OpenKeepsMemory(heap, t, size, c);
    var g := OpenBuffer(heap, t, size);
    ContentLength(g, heap.nextBuffer);
    MemoryLength(g, c);
    SliceOfSlice(g.chunks[c].memory, g.live[heap.nextBuffer].offset, size, h);
  }

  lemma MemoryLength(g: Heap, c: ChunkId)
    requires Inv(g) && c in g.chunks
    ensures |g.chunks[c].memory| == CHUNK_SIZE
  {
  }

  lemma RunExtends(steps: seq<Step>, g: Heap, step: Step)
    requires Run(EMPTY, steps, g) && Possible(g, step)
    ensures Run(EMPTY, steps + [step], Perform(g, step))
  {
    assert (steps + [step])[..|steps|] == steps;
  }

  /** A thread has filled the first six bytes of a chunk, with `lo` and `hi` as the sequence field, its buffer
      has been sent and released, and it has ended: the chunk is in the pool. */
  ghost predicate Recycled(h: Heap, lo: byte, hi: byte) {
    && h.chunks.Keys == {0} && h.local == map[] && h.pool == [0] && h.live == map[]
    && h.nextChunk == 1 && h.nextBuffer == 1 && !h.crashed
    && |h.chunks[0].memory| == CHUNK_SIZE && h.chunks[0].memory[4] == lo && h.chunks[0].memory[5] == hi
  }

  /** One chunk, which thread 0 has and which holds one buffer of six bytes. */
  ghost predicate OneBuffer(h: Heap, used: nat, written: nat, closed: bool) {
    && h.chunks.Keys == {0} && |h.chunks[0].memory| == CHUNK_SIZE && h.local == map[0 := 0] && h.pool == []
    && h.chunks[0].open != closed && h.chunks[0].used == used
    && h.live == map[0 := SendBuffer(0, 0, 6, written, closed)]
    && h.nextChunk == 1 && h.nextBuffer == 1 && !h.crashed
  }

  lemma FirstOpen()
    ensures OneBuffer(OpenBuffer(EMPTY, 0, 6), 0, 0, false)
  {
  }

  lemma WriteInto(h: Heap, at: nat, value: byte)
    requires OneBuffer(h, 0, 0, false) && at < 6
    ensures Possible(h, Write(0, at, value))
    ensures OneBuffer(WriteByte(h, 0, at, value), 0, 0, false)
    ensures WriteByte(h, 0, at, value).chunks[0].memory == h.chunks[0].memory[at := value]
  {
  }

  lemma CloseAndRecycle(h: Heap, lo: byte, hi: byte)
    requires OneBuffer(h, 0, 0, false) && h.chunks[0].memory[4] == lo && h.chunks[0].memory[5] == hi
    ensures Possible(h, Close(0, 6)) && Possible(Perform(h, Close(0, 6)), Release(0))
    ensures var g := Perform(Perform(h, Close(0, 6)), Release(0));
            Possible(g, Exit(0)) && Recycled(Perform(g, Exit(0)), lo, hi)
  {
    var closed := CloseBuffer(h, 0, 6);
    assert OneBuffer(closed, 6, 6, true);
    var released := ReleaseBuffer(closed, 0);
    assert Referenced(released, 0) by { assert released.local[0] == 0; }
    assert released == closed.(live := map[]);
  }

  lemma RecycledIsReached(lo: byte, hi: byte) returns (steps: seq<Step>, h: Heap)
    ensures Run(EMPTY, steps, h) && Recycled(h, lo, hi)
  {
    hide Run, OneBuffer, Recycled, Possible, OpenBuffer, WriteByte, CloseBuffer, ReleaseBuffer, ExitThread;
    EmptyRun();
    FirstOpen();
    OpenIsPossible();
    RunExtends([], EMPTY, Open(0, 6));
    var s1, h1 := [] + [Open(0, 6)], OpenBuffer(EMPTY, 0, 6);
    MemoryOfOne(h1);
    WriteInto(h1, 4, lo);
    RunExtends(s1, h1, Write(0, 4, lo));
    var s2, h2 := s1 + [Write(0, 4, lo)], WriteByte(h1, 0, 4, lo);
    WriteInto(h2, 5, hi);
    RunExtends(s2, h2, Write(0, 5, hi));
    var s3, h3 := s2 + [Write(0, 5, hi)], WriteByte(h2, 0, 5, hi);
    CloseAndRecycle(h3, lo, hi);
    RunExtends(s3, h3, Close(0, 6));
    var s4, h4 := s3 + [Close(0, 6)], CloseBuffer(h3, 0, 6);
    RunExtends(s4, h4, Release(0));
    var s5, h5 := s4 + [Release(0)], ReleaseBuffer(h4, 0);
    RunExtends(s5, h5, Exit(0));
    steps, h := s5 + [Exit(0)], ExitThread(h5, 0);
  }

  lemma MemoryOfOne(h: Heap)
    requires OneBuffer(h, 0, 0, false)
    ensures 0 in h.chunks && |h.chunks[0].memory| == CHUNK_SIZE
  {
  }

  lemma OpenIsPossible()
    ensures Possible(EMPTY, Open(0, 6))
  {
  }

  lemma EmptyRun()
    ensures Run(EMPTY, [], EMPTY)
  {
  }

  lemma SizeFieldOfFrame(h: HeaderSize, id: nat, extra: seq<byte>, payload: seq<byte>)
    requires id < 65536 && h + |payload| < 65536 && |extra| == h - 4
    ensures Frame(h, id, extra, payload)[4..h] == extra
  {
  }

  /** Any number at all can turn up in the sequence field of a packet that nobody numbered: there is a run
      that leaves it in a chunk, and the next thread's first packet, printed and sent unreliably, carries it. */
  lemma AnyNumberCanBeStale(s: nat, id: nat) returns (steps: seq<Step>, h: Heap)
    requires s < 65536 && id < 65536
    ensures Run(EMPTY, steps, h) && Inv(h) && !h.crashed
    ensures var (g, r) := MakeSendBuffer(h, 1, UDP_HEADER, id, []);
            && r.Printed? && r.b in g.live && ChunksValid(g) && Placed(g, g.live[r.b])
            && |Content(g, g.live[r.b])| == UDP_HEADER
            && Content(g, g.live[r.b])[4..6] == [s % 256, s / 256]
  {
    hide Run, OpenBuffer, MakeSendBuffer, Frame, SameBuffer, Unwritten, Content;
    var lo, hi: byte := s % 256, s / 256;
    steps, h := RecycledIsReached(lo, hi);
    InvHolds(steps, h);
    PrintsExactly(h, 1, UDP_HEADER, id, []);
    FirstOpenTakesPooled(h, lo, hi);
    UnwrittenAreOldBytes(h, 1, UDP_HEADER, 6, 0);
    assert h.chunks[0].memory[4..6] == [lo, hi];
    SizeFieldOfFrame(UDP_HEADER, id, [lo, hi], []);
    FrameLength(UDP_HEADER, id, [lo, hi], []);
  }

  lemma FirstOpenTakesPooled(h: Heap, lo: byte, hi: byte)
    requires Recycled(h, lo, hi)
    ensures !HasOpenBuffer(h, 1)
    ensures var g := OpenBuffer(h, 1, 6); 1 in g.live && g.live[1].owner == 0 && g.live[1].offset == 0
  {
  }
}
