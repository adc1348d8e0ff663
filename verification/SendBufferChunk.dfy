/** The allocator's objects: a chunk over a real byte array, the packet printer that fills it, and the
    manager (ClientNetworkCore/SendBuffer.cpp, ClientNetworkCore/SendBuffer.h,
    DummyClient/ServerPacketHandler.h `MakeSendBufferImpl`). */
module SendBufferChunk {
  import opened Options
  import opened Framing
  import opened SendBuffers
  import opened PacketPrinter

  class SendBufferChunk {
    const buffer: array<byte>
    var open: bool
    var usedSize: nat

    ghost predicate Valid()
      reads this
    {
      usedSize <= buffer.Length == CHUNK_SIZE
    }

    ghost function View(): Chunk
      requires Valid()
      reads this, buffer
    {
      Chunk(open, usedSize, buffer[..])
    }

    constructor ()
      ensures Valid() && fresh(buffer) && View() == NewChunk()
    {
      buffer := new byte[CHUNK_SIZE](_ => 0);
      open := false;
      usedSize := 0;
      new;
      assert buffer[..] == Zeros(CHUNK_SIZE);
    }

    function FreeSize(): nat
      requires Valid()
      reads this
    {
      buffer.Length - usedSize
    }

    method Reset()
      requires Valid()
      modifies this`open, this`usedSize
      ensures Valid() && View() == ResetChunk(old(View()))
      ensures !open && usedSize == 0 && buffer[..] == old(buffer[..])
    {
      open := false;
      usedSize := 0;
    }

    /** The position of the new buffer, or nothing if it does not fit.  A failed assertion is reported as
        `!ok` and changes nothing. */
    method Open(allocSize: nat) returns (ok: bool, r: Option<nat>)
      requires Valid()
      modifies this`open
      ensures Valid()
      ensures ok <==> allocSize <= 6000 && !old(open)
      ensures r == if ok && allocSize <= SendBuffers.FreeSize(old(View())) then Some(old(usedSize)) else None
      ensures View() == if r.Some? then OpenChunk(old(View())) else old(View())
    {
      if allocSize > CHUNK_SIZE || open {
        return false, None;
      }
      if allocSize > FreeSize() {
        return true, None;
      }
      open := true;
      return true, Some(usedSize);
    }

    /** Nothing here bounds what is closed: the chunk stays sound exactly if that much was free. */
    method Close(writeSize: nat) returns (ok: bool)
      requires Valid()
      modifies this`open, this`usedSize
      ensures ok <==> old(open)
      ensures ok ==> !open && usedSize == old(usedSize) + writeSize
      ensures ok ==> (Valid() <==> writeSize <= old(FreeSize()))
      ensures ok && Valid() ==> View() == CloseChunk(old(View()), writeSize)
      ensures !ok ==> Valid() && View() == old(View())
    {
      if !open {
        return false;
      }
      open := false;
      usedSize := usedSize + writeSize;
      return true;
    }
  }

  lemma PartsMakeFrame(s: seq<byte>, h: HeaderSize, id: nat, extra: seq<byte>, payload: seq<byte>)
    requires id < 65536 && h + |payload| < 65536 && |extra| == h - 4 && |s| == h + |payload|
    requires s[0] == (h + |payload|) % 256 && s[1] == (h + |payload|) / 256
    requires s[2] == id % 256 && s[3] == id / 256
    requires forall k :: 4 <= k < h ==> s[k] == extra[k - 4]
    requires forall k :: h <= k < |s| ==> s[k] == payload[k - h]
    ensures s == Frame(h, id, extra, payload)
  {
    assert s[4..h] == extra && s[h..] == payload;
    assert s == s[..4] + s[4..h] + s[h..];
  }

  /** The same, for a packet somewhere in the middle. */
  lemma FrameAt(before: seq<byte>, after: seq<byte>, at: nat, h: HeaderSize, id: nat, payload: seq<byte>)
    requires id < 65536 && h + |payload| < 65536 && at + h + |payload| <= |before| == |after|
    requires after[at] == (h + |payload|) % 256 && after[at + 1] == (h + |payload|) / 256
    requires after[at + 2] == id % 256 && after[at + 3] == id / 256
    requires forall k :: at + 4 <= k < at + h ==> after[k] == before[k]
    requires forall k :: at + h <= k < at + h + |payload| ==> after[k] == payload[k - (at + h)]
    ensures after[at..at + h + |payload|] == Frame(h, id, before[at + 4..at + h], payload)
  {
    hide Frame;
    var s, extra := after[at..at + h + |payload|], before[at + 4..at + h];
    forall k | 4 <= k < h ensures s[k] == extra[k - 4] {
      assert s[k] == after[at + k] && extra[k - 4] == before[at + k];
    }
    forall k | h <= k < |s| ensures s[k] == payload[k - h] {
      assert s[k] == after[at + k];
    }
    PartsMakeFrame(s, h, id, extra, payload);
  }

  lemma StoresMakeFrame(before: seq<byte>, after: seq<byte>, at: nat, h: HeaderSize, id: nat, payload: seq<byte>)
    requires id < 65536 && h + |payload| < 65536 && at + h + |payload| <= |before|
    requires var n := h + |payload|;
             var header := before[at := n % 256][at + 1 := n / 256][at + 2 := id % 256][at + 3 := id / 256];
             after == header[..at + h] + payload + header[at + n..]
    ensures after == Store(before, at, h, id, payload)
  {
    hide Frame;
    var n := h + |payload|;
    FrameAt(before, after, at, h, id, payload);
    assert after == before[..at] + after[at..at + n] + before[at + n..];
  }

  /** The manager, with the thread-local chunk table it works on. */
  class SendBufferManager {
    var chunks: map<ChunkId, Chunk>
    var localChunk: map<ThreadId, ChunkId>
    var pool: seq<ChunkId>
    var live: map<SendBuffers.BufferId, SendBuffer>
    var nextChunk: ChunkId
    var nextBuffer: SendBuffers.BufferId
    var crashed: bool

    ghost function View(): Heap
      reads this
    {
      Heap(chunks, localChunk, pool, live, nextChunk, nextBuffer, crashed)
    }

    constructor ()
      ensures View() == EMPTY
    {
      chunks := map[];
      localChunk := map[];
      pool := [];
      live := map[];
      nextChunk := 0;
      nextBuffer := 0;
      crashed := false;
    }

    /** The back of the pool, or a new chunk; reset before use, as every caller does. */
    method Pop() returns (c: ChunkId)
      requires Inv(View())
      modifies this`chunks, this`pool, this`nextChunk
      ensures (View(), c) == PopReset(old(View()))
    {
      if pool != [] {
        c := pool[|pool| - 1];
        pool := pool[..|pool| - 1];
        chunks := chunks[c := ResetChunk(chunks[c])];
        return;
      }
      c := nextChunk;
      nextChunk := nextChunk + 1;
      chunks := chunks[c := ResetChunk(NewChunk())];
    }

    /** The deleter of a chunk's last reference. */
    method DropReference(c: ChunkId)
      modifies this`pool
      ensures View() == PushGlobal(old(View()), c)
    {
      var held := c in pool;
      if exists b :: b in live && live[b].owner == c {
        held := true;
      }
      if exists t :: t in localChunk && localChunk[t] == c {
        held := true;
      }
      if !held {
        pool := pool + [c];
      }
    }

    method ReplaceChunk(t: ThreadId)
      requires Inv(View())
      modifies this`chunks, this`pool, this`nextChunk, this`localChunk
      ensures View() == Replace(old(View()), t)
      ensures Inv(View())
    {
      hide PopReset, PushGlobal;
      ReplaceKeepsInv(View(), t);
      var hadChunk := t in localChunk;
      var before := if hadChunk then localChunk[t] else 0;
      var c := Pop();
      localChunk := localChunk[t := c];
      if hadChunk {
        DropReference(before);
      }
    }

    /** `SendBufferManager::Open` for thread `t`; a failed assertion is recorded as a crash. */
    method Open(t: ThreadId, size: nat) returns (b: Option<SendBuffers.BufferId>)
      requires Inv(View()) && !crashed
      modifies this
      ensures View() == OpenBuffer(old(View()), t, size) && Inv(View())
      ensures b == if crashed then None else Some(old(nextBuffer))
      ensures crashed <==> size > 6000 || (t in old(localChunk) && old(chunks[localChunk[t]].open))
    {
      hide Replace, PopReset, PushGlobal, Inv;
      ghost var before := View();
      OpenAlwaysDelivers(before, t, size);
      OpenKeepsInv(before, t, size);
      OwnersAreChunks(before);
      if t !in localChunk {
        ReplaceKeepsInv(before, t);
        ReplaceChunk(t);
      }
      if chunks[localChunk[t]].open {
        crashed := true;
        return None;
      }
      if SendBuffers.FreeSize(chunks[localChunk[t]]) < size {
        ReplaceKeepsInv(View(), t);
        ReplaceChunk(t);
      }
      var c := localChunk[t];
      if size > CHUNK_SIZE {
        crashed := true;
        return None;
      }
      live := live[nextBuffer := SendBuffer(c, chunks[c].used, size, 0, false)];
      chunks := chunks[c := OpenChunk(chunks[c])];
      b := Some(nextBuffer);
      nextBuffer := nextBuffer + 1;
    }

    /** `SendBuffer::Close` on an open buffer; closing more than was asked for is recorded as a crash. */
    method Close(b: SendBuffers.BufferId, writeSize: nat)
      requires Inv(View()) && !crashed && b in live && !live[b].closed
      modifies this`chunks, this`live, this`crashed
      ensures View() == CloseBuffer(old(View()), b, writeSize) && Inv(View())
      ensures crashed <==> writeSize > old(live[b].allocSize)
    {
      ghost var before := View();
      CloseKeepsInv(before, b, writeSize);
      assert Placed(before, live[b]);
      if live[b].allocSize < writeSize {
        crashed := true;
        return;
      }
      var owner := live[b].owner;
      live := live[b := live[b].(writeSize := writeSize, closed := true)];
      chunks := chunks[owner := CloseChunk(chunks[owner], writeSize)];
    }

    /** `MakeSendBufferImpl` for thread `t`. */
    method MakeSendBufferImpl(t: ThreadId, h: HeaderSize, id: nat, payload: seq<byte>) returns (r: Outcome)
      requires Inv(View()) && !crashed && id < 65536 && h <= CHUNK_SIZE
      modifies this
      ensures (View(), r) == MakeSendBuffer(old(View()), t, h, id, payload)
    {
      hide OpenBuffer, CloseBuffer, Inv, Store, StoreIn, Placed, SameBuffer, Content, HasOpenBuffer;
      ghost var before := View();
      SizesAre(h, payload);
      var dataSize := |payload| % 65536;
      var packetSize := (dataSize + h) % 65536;
      OpenedBuffer(before, t, packetSize);
      var place := Open(t, packetSize);
      if place.None? {
        return Crashed;
      }
      var b := place.value;
      if dataSize < |payload| {
        crashed := true;
        return Crashed;
      }
      if packetSize < h + |payload| {
        return Overrun;
      }
      ghost var atOpen := View();
      StoreKeepsInv(atOpen, b, h, id, payload);
      StoreInIs(atOpen, b, h, id, payload);
      var owner, at := live[b].owner, live[b].offset;
      var memory := chunks[owner].memory;
      memory := memory[at := packetSize % 256][at + 1 := packetSize / 256];
      memory := memory[at + 2 := id % 256][at + 3 := id / 256];
      memory := memory[..at + h] + payload + memory[at + packetSize..];
      StoresMakeFrame(chunks[owner].memory, memory, at, h, id, payload);
      chunks := chunks[owner := chunks[owner].(memory := memory)];
      assert View() == StoreIn(atOpen, b, h, id, payload);
      Close(b, packetSize);
      return Printed(b);
    }

    /** The last reference to buffer `b` goes. */
    method Release(b: SendBuffers.BufferId)
      requires Inv(View()) && b in live
      modifies this`live, this`pool
      ensures View() == ReleaseBuffer(old(View()), b) && Inv(View())
    {
      hide PushGlobal, Inv;
      ReleaseKeepsInv(View(), b);
      var owner := live[b].owner;
      live := live - {b};
      DropReference(owner);
    }

    /** Thread `t` ends. */
    method Exit(t: ThreadId)
      requires Inv(View())
      modifies this`localChunk, this`pool
      ensures View() == ExitThread(old(View()), t) && Inv(View())
    {
      hide PushGlobal, Inv;
      ExitKeepsInv(View(), t);
      if t in localChunk {
        var c := localChunk[t];
        localChunk := localChunk - {t};
        DropReference(c);
      }
    }
  }
}
