/** The send-buffer allocator: 6000-byte chunks filled from the front, one current chunk per thread, and a
    pool that a chunk returns to when its last reference goes (ClientNetworkCore/SendBuffer.cpp).

    `Heap` is the allocator's whole state, with one step per operation; the steps of different threads
    interleave freely. */
module SendBuffers {
  import opened Options
  import opened Framing

  const CHUNK_SIZE: nat := 6000

  type ChunkId = nat
  type ThreadId = nat
  type BufferId = nat

  datatype Chunk = Chunk(open: bool, used: nat, memory: seq<byte>)

  function Zeros(n: nat): (z: seq<byte>)
    ensures |z| == n
  {
    seq(n, _ => 0)
  }

  function NewChunk(): Chunk {
    Chunk(false, 0, Zeros(CHUNK_SIZE))
  }

  /** `closed` records that `Close` has run; until then the buffer owns all it asked for. */
  datatype SendBuffer =
    SendBuffer(owner: ChunkId, offset: nat, allocSize: nat, writeSize: nat, closed: bool)

  function Extent(b: SendBuffer): nat {
    if b.closed then b.writeSize else b.allocSize
  }

  /** `local` maps a thread to its current chunk; `live` holds the buffers somebody still refers to. */
  datatype Heap = Heap(
    chunks: map<ChunkId, Chunk>,
    local: map<ThreadId, ChunkId>,
    pool: seq<ChunkId>,
    live: map<BufferId, SendBuffer>,
    nextChunk: ChunkId,
    nextBuffer: BufferId,
    crashed: bool)

  const EMPTY: Heap := Heap(map[], map[], [], map[], 0, 0, false)

  // ---------------------------------------------------------------------------------------------
  // The chunk
  // ---------------------------------------------------------------------------------------------

  function FreeSize(c: Chunk): int {
    CHUNK_SIZE - c.used
  }

  function ResetChunk(c: Chunk): Chunk {
    c.(open := false, used := 0)
  }

  function OpenChunk(c: Chunk): Chunk {
    c.(open := true)
  }

  function CloseChunk(c: Chunk, writeSize: nat): Chunk {
    c.(open := false, used := c.used + writeSize)
  }

  // ---------------------------------------------------------------------------------------------
  // The manager
  // ---------------------------------------------------------------------------------------------

  /** The chunk `c` names; every name in use names one. */
  function ChunkAt(h: Heap, c: ChunkId): Chunk {
    if c in h.chunks then h.chunks[c] else NewChunk()
  }

  /** Somebody holds a reference to `c`: a live buffer, a thread, or the pool. */
  predicate Referenced(h: Heap, c: ChunkId) {
    || (exists b :: b in h.live && h.live[b].owner == c)
    || (exists t :: t in h.local && h.local[t] == c)
    || c in h.pool
  }

  /** What the last reference to `c` does when it goes: the deleter pushes `c` into the pool. */
  function PushGlobal(h: Heap, c: ChunkId): Heap {
    if Referenced(h, c) then h else h.(pool := h.pool + [c])
  }

  /** `Pop` followed by `Reset`: the back of the pool, or a new chunk. */
  function PopReset(h: Heap): (r: (Heap, ChunkId)) {
    if h.pool == [] then
      (h.(chunks := h.chunks[h.nextChunk := ResetChunk(NewChunk())], nextChunk := h.nextChunk + 1), h.nextChunk)
    else
      var c := h.pool[|h.pool| - 1];
      (h.(chunks := h.chunks[c := ResetChunk(ChunkAt(h, c))], pool := h.pool[..|h.pool| - 1]), c)
  }

  /** The thread's current chunk is replaced by a fresh one and loses the thread's reference. */
  function Replace(h: Heap, t: ThreadId): (r: Heap)
    ensures t in r.local
  {
    var (g, c) := PopReset(h);
    var g' := g.(local := g.local[t := c]);
    if t in h.local then PushGlobal(g', h.local[t]) else g'
  }

  /** `SendBufferManager::Open`: crashes on a nested open and on an oversized request. */
  function OpenBuffer(h: Heap, t: ThreadId, size: nat): Heap {
    OpenReady(if t in h.local then h else Replace(h, t), t, size)
  }

  /** The rest of `Open` once the thread has a current chunk. */
  function OpenReady(h: Heap, t: ThreadId, size: nat): Heap
    requires t in h.local
  {
    if ChunkAt(h, h.local[t]).open then h.(crashed := true)
    else OpenInCurrent(if FreeSize(ChunkAt(h, h.local[t])) < size then Replace(h, t) else h, t, size)
  }

  /** `SendBufferChunk::Open` on the thread's current chunk. */
  function OpenInCurrent(h: Heap, t: ThreadId, size: nat): Heap
    requires t in h.local
  {
    var c := h.local[t];
    var chunk := ChunkAt(h, c);
    if size > CHUNK_SIZE || chunk.open then h.(crashed := true)
    else if size > FreeSize(chunk) then h
    else
      h.(chunks := h.chunks[c := OpenChunk(chunk)],
         live := h.live[h.nextBuffer := SendBuffer(c, chunk.used, size, 0, false)],
         nextBuffer := h.nextBuffer + 1)
  }

  /** `SendBuffer::Close` */
  function CloseBuffer(h: Heap, b: BufferId, writeSize: nat): Heap
    requires b in h.live
  {
    var buffer := h.live[b];
    var chunk := ChunkAt(h, buffer.owner);
    if buffer.allocSize < writeSize then h.(crashed := true)
    else
      var h' := h.(live := h.live[b := buffer.(writeSize := writeSize, closed := true)]);
      if !chunk.open then h'.(crashed := true)
      else h'.(chunks := h.chunks[buffer.owner := CloseChunk(chunk, writeSize)])
  }

  /** The last reference to buffer `b` goes. */
  function ReleaseBuffer(h: Heap, b: BufferId): Heap
    requires b in h.live
  {
    PushGlobal(h.(live := h.live - {b}), h.live[b].owner)
  }

  /** Thread `t` ends and drops its current chunk. */
  function ExitThread(h: Heap, t: ThreadId): Heap {
    if t in h.local then PushGlobal(h.(local := h.local - {t}), h.local[t]) else h
  }

  /** A holder of buffer `b` stores a byte inside it. */
  function WriteByte(h: Heap, b: BufferId, at: nat, value: byte): Heap
    requires b in h.live
  {
    var buffer := h.live[b];
    var chunk := ChunkAt(h, buffer.owner);
    var i := buffer.offset + at;
    if i >= |chunk.memory| then h
    else h.(chunks := h.chunks[buffer.owner := chunk.(memory := chunk.memory[i := value])])
  }

  datatype Step =
    | Open(t: ThreadId, size: nat)
    | Close(b: BufferId, writeSize: nat)
    | Write(b: BufferId, at: nat, value: byte)
    | Release(b: BufferId)
    | Exit(t: ThreadId)

  /** A buffer is used only while referenced, closed at most once (as its one caller does), and written
      only inside the bytes it owns.  After a crash nothing happens. */
  predicate Possible(h: Heap, step: Step) {
    && !h.crashed
    && match step
       case Open(_, _) => true
       case Close(b, _) => b in h.live && !h.live[b].closed
       case Write(b, at, _) => b in h.live && at < Extent(h.live[b])
       case Release(b) => b in h.live
       case Exit(_) => true
  }

  function Perform(h: Heap, step: Step): Heap
    requires Possible(h, step)
  {
    match step
    case Open(t, size) => OpenBuffer(h, t, size)
    case Close(b, writeSize) => CloseBuffer(h, b, writeSize)
    case Write(b, at, value) => WriteByte(h, b, at, value)
    case Release(b) => ReleaseBuffer(h, b)
    case Exit(t) => ExitThread(h, t)
  }

  ghost predicate Run(h: Heap, steps: seq<Step>, g: Heap) {
    if steps == [] then h == g
    else
      var n := |steps| - 1;
      exists m :: Run(h, steps[..n], m) && Possible(m, steps[n]) && g == Perform(m, steps[n])
  }

  // ---------------------------------------------------------------------------------------------
  // The invariant
  // ---------------------------------------------------------------------------------------------

  /** Two buffers own no byte in common. */
  predicate Disjoint(x: SendBuffer, y: SendBuffer) {
    x.owner != y.owner || x.offset + Extent(x) <= y.offset || y.offset + Extent(y) <= x.offset
  }

  /** Buffer `b` lies within its chunk: below the mark once closed, and at the mark of the open chunk
      until then. */
  ghost predicate Placed(h: Heap, b: SendBuffer) {
    && b.owner in h.chunks
    && b.offset + Extent(b) <= CHUNK_SIZE
    && (b.closed ==> b.offset + b.writeSize <= h.chunks[b.owner].used)
    && (!b.closed ==> h.chunks[b.owner].open && b.offset == h.chunks[b.owner].used)
  }

  ghost predicate ChunksValid(h: Heap) {
    forall c :: c in h.chunks ==>
      c < h.nextChunk && h.chunks[c].used <= CHUNK_SIZE && |h.chunks[c].memory| == CHUNK_SIZE
  }

  /** Every chunk belongs to at most one thread or to the pool, and the pool's chunks hold no live buffer. */
  ghost predicate OwnersValid(h: Heap) {
    && (forall t :: t in h.local ==> h.local[t] in h.chunks && h.local[t] !in h.pool)
    && (forall t, u :: t in h.local && u in h.local && h.local[t] == h.local[u] ==> t == u)
    && (forall c :: c in h.pool ==> c in h.chunks)
    && (forall i, j :: 0 <= i < j < |h.pool| ==> h.pool[i] != h.pool[j])
    && (forall b :: b in h.live ==> h.live[b].owner !in h.pool)
  }

  ghost predicate BuffersValid(h: Heap) {
    && (forall b :: b in h.live ==> b < h.nextBuffer && Placed(h, h.live[b]))
    && (forall a, b :: a in h.live && b in h.live && a != b ==> Disjoint(h.live[a], h.live[b]))
    && (forall a, b :: a in h.live && b in h.live && a != b && h.live[a].owner == h.live[b].owner ==>
          h.live[a].closed || h.live[b].closed)
  }

  ghost predicate Inv(h: Heap) {
    ChunksValid(h) && OwnersValid(h) && BuffersValid(h)
  }

  lemma PushGlobalKeepsInv(h: Heap, c: ChunkId)
    requires Inv(h) && c in h.chunks
    ensures Inv(PushGlobal(h, c))
    ensures var g := PushGlobal(h, c);
      g.chunks == h.chunks && g.live == h.live && g.local == h.local &&
      g.nextBuffer == h.nextBuffer && g.crashed == h.crashed
  {
  }

  /** A popped chunk is nobody's: no thread has it, it is out of the pool, and no live buffer is in it. */
  lemma PopResetKeepsInv(h: Heap)
    requires Inv(h)
    ensures var (g, c) := PopReset(h);
      && Inv(g) && g.live == h.live && g.local == h.local && g.nextBuffer == h.nextBuffer
      && g.crashed == h.crashed && h.chunks.Keys <= g.chunks.Keys
      && (forall d :: d in h.chunks && d != c ==> g.chunks[d] == h.chunks[d])
      && c in g.chunks && g.chunks[c].used == 0 && !g.chunks[c].open && c !in g.pool
      && (forall t :: t in g.local ==> g.local[t] != c)
      && (forall b :: b in g.live ==> g.live[b].owner != c)
  {
    var (g, c) := PopReset(h);
    if h.pool != [] {
      assert h.pool[|h.pool| - 1] in h.pool;
      forall d | d in g.pool ensures d in h.pool && d != c {}
    }
    forall b | b in g.live ensures g.live[b].owner != c && Placed(g, g.live[b]) {
      assert Placed(h, h.live[b]);
    }
  }

  lemma AssignKeepsInv(h: Heap, t: ThreadId, c: ChunkId)
    requires Inv(h) && c in h.chunks && c !in h.pool
    requires forall u :: u in h.local ==> h.local[u] != c
    ensures Inv(h.(local := h.local[t := c]))
  {
    var g := h.(local := h.local[t := c]);
    forall b | b in g.live ensures Placed(g, g.live[b]) { assert Placed(h, h.live[b]); }
  }

  lemma OwnersAreChunks(h: Heap)
    requires Inv(h)
    ensures forall b :: b in h.live ==> h.live[b].owner in h.chunks
    ensures forall t :: t in h.local ==> h.local[t] in h.chunks
  {
    forall b | b in h.live ensures h.live[b].owner in h.chunks { assert Placed(h, h.live[b]); }
  }

  lemma ReplaceKeepsInv(h: Heap, t: ThreadId)
    requires Inv(h)
    ensures (forall b :: b in h.live ==> h.live[b].owner in h.chunks)
    ensures var g := Replace(h, t);
      && Inv(g) && (forall b :: b in g.live ==> g.live[b].owner in g.chunks) && g.local[t] in g.chunks
      && g.live == h.live && g.nextBuffer == h.nextBuffer && g.crashed == h.crashed
      && t in g.local && g.chunks[g.local[t]].used == 0 && !g.chunks[g.local[t]].open
      && (forall b :: b in g.live ==> h.chunks[h.live[b].owner] == g.chunks[g.live[b].owner])
      && (forall u :: u != t ==> (u in g.local <==> u in h.local) && (u in h.local ==> g.local[u] == h.local[u]))
  {
    hide PopReset, PushGlobal, Inv;
    PopResetKeepsInv(h);
    var (g, c) := PopReset(h);
    AssignKeepsInv(g, t, c);
    OwnersAreChunks(h);
    if t in h.local { PushGlobalKeepsInv(g.(local := g.local[t := c]), h.local[t]); }
    OwnersAreChunks(Replace(h, t));
  }

  lemma OpenInCurrentKeepsOwners(h: Heap, t: ThreadId, size: nat)
    requires OwnersValid(h) && t in h.local
    ensures h.local[t] in h.chunks && OwnersValid(OpenInCurrent(h, t, size))
  {
  }

  lemma OpenInCurrentKeepsInv(h: Heap, t: ThreadId, size: nat)
    requires Inv(h) && t in h.local && !h.chunks[h.local[t]].open
    requires size <= CHUNK_SIZE ==> size <= FreeSize(h.chunks[h.local[t]])
    ensures var g := OpenInCurrent(h, t, size);
      && Inv(g)
      && (g.crashed <==> h.crashed || size > CHUNK_SIZE)
      && (size <= CHUNK_SIZE ==>
            g.live == h.live[h.nextBuffer := SendBuffer(h.local[t], h.chunks[h.local[t]].used, size, 0, false)])
  {
    hide OwnersValid;
    OpenInCurrentKeepsOwners(h, t, size);
    var g := OpenInCurrent(h, t, size);
    forall b | b in h.live ensures Placed(h, h.live[b]) {}
    if size <= CHUNK_SIZE {
      forall b | b in h.live
        ensures Disjoint(h.live[b], g.live[h.nextBuffer]) && Disjoint(g.live[h.nextBuffer], h.live[b])
      {
        assert Placed(h, h.live[b]);
      }
    }
  }

  lemma OpenKeepsInv(h: Heap, t: ThreadId, size: nat)
    requires Inv(h)
    ensures Inv(OpenBuffer(h, t, size))
  {
    hide PushGlobal, OpenInCurrent, Replace, PopReset;
    if t !in h.local { ReplaceKeepsInv(h, t); }
    var h1 := if t in h.local then h else Replace(h, t);
    assert h1.local[t] in h1.chunks;
    if !h1.chunks[h1.local[t]].open {
      if FreeSize(h1.chunks[h1.local[t]]) < size { ReplaceKeepsInv(h1, t); }
      var h2 := if FreeSize(h1.chunks[h1.local[t]]) < size then Replace(h1, t) else h1;
      OpenInCurrentKeepsInv(h2, t, size);
    }
  }

  lemma CloseKeepsInv(h: Heap, b: BufferId, writeSize: nat)
    requires Inv(h) && Possible(h, Close(b, writeSize))
    ensures Inv(CloseBuffer(h, b, writeSize))
    ensures CloseBuffer(h, b, writeSize).crashed <==> writeSize > h.live[b].allocSize
  {
    var g := CloseBuffer(h, b, writeSize);
    assert Placed(h, h.live[b]);
    forall a | a in g.live ensures Placed(g, g.live[a]) { assert Placed(h, h.live[a]); }
    forall a | a in g.live && a != b ensures Disjoint(g.live[a], g.live[b]) && Disjoint(g.live[b], g.live[a]) {
      assert Disjoint(h.live[a], h.live[b]);
    }
  }

  lemma WriteKeepsInv(h: Heap, b: BufferId, at: nat, value: byte)
    requires Inv(h) && Possible(h, Write(b, at, value))
    ensures Inv(WriteByte(h, b, at, value))
  {
    assert Placed(h, h.live[b]);
    var g := WriteByte(h, b, at, value);
    forall a | a in g.live ensures Placed(g, g.live[a]) { assert Placed(h, h.live[a]); }
  }

  lemma ReleaseKeepsInv(h: Heap, b: BufferId)
    requires Inv(h) && b in h.live
    ensures Inv(ReleaseBuffer(h, b))
  {
    hide PushGlobal;
    assert Placed(h, h.live[b]);
    var h' := h.(live := h.live - {b});
    forall a | a in h'.live ensures Placed(h', h'.live[a]) { assert Placed(h, h.live[a]); }
    PushGlobalKeepsInv(h', h.live[b].owner);
  }

  lemma ExitKeepsInv(h: Heap, t: ThreadId)
    requires Inv(h)
    ensures Inv(ExitThread(h, t))
  {
    hide PushGlobal;
    if t in h.local {
      var h' := h.(local := h.local - {t});
      forall a | a in h'.live ensures Placed(h', h'.live[a]) { assert Placed(h, h.live[a]); }
      PushGlobalKeepsInv(h', h.local[t]);
    }
  }

  lemma StepKeepsInv(h: Heap, step: Step)
    requires Inv(h) && Possible(h, step)
    ensures Inv(Perform(h, step))
  {
    hide Inv, Possible;
    match step
    case Open(t, size) => OpenKeepsInv(h, t, size);
    case Close(b, writeSize) => CloseKeepsInv(h, b, writeSize);
    case Write(b, at, value) => WriteKeepsInv(h, b, at, value);
    case Release(b) => ReleaseKeepsInv(h, b) by { ReleasedIsLive(h, b); }
    case Exit(t) => ExitKeepsInv(h, t);
  }

  lemma ReleasedIsLive(h: Heap, b: BufferId)
    requires Possible(h, Release(b))
    ensures b in h.live
  {
  }

  // ---------------------------------------------------------------------------------------------
  // Main results
  // ---------------------------------------------------------------------------------------------

  lemma {:induction false} InvHolds(steps: seq<Step>, h: Heap)
    requires Run(EMPTY, steps, h)
    ensures Inv(h)
  {
    hide Inv, Perform, Possible;
    if steps == [] {
      assert Inv(EMPTY) by { EmptyIsValid(); }
    } else {
      var n := |steps| - 1;
      var m :| Run(EMPTY, steps[..n], m) && Possible(m, steps[n]) && h == Perform(m, steps[n]);
      InvHolds(steps[..n], m);
      StepKeepsInv(m, steps[n]);
    }
  }

  lemma EmptyIsValid()
    ensures Inv(EMPTY)
  {
  }

  /** In every run over any number of threads, recycling included: two live buffers never share a byte,
      a chunk belongs to at most one thread and not to the pool as well, a pooled chunk holds no live
      buffer, and no chunk is filled past 6000 bytes. */
  lemma LiveBuffersNeverOverlap(steps: seq<Step>, h: Heap)
    requires Run(EMPTY, steps, h)
    ensures forall a, b :: a in h.live && b in h.live && a != b ==> Disjoint(h.live[a], h.live[b])
    ensures forall b :: b in h.live ==>
              h.live[b].offset + Extent(h.live[b]) <= 6000 && h.live[b].owner !in h.pool
    ensures forall t, u :: t in h.local && u in h.local && h.local[t] == h.local[u] ==> t == u
    ensures forall t :: t in h.local ==> h.local[t] !in h.pool
    ensures forall c :: c in h.chunks ==> h.chunks[c].used <= 6000
  {
    InvHolds(steps, h);
    forall b | b in h.live ensures h.live[b].offset + Extent(h.live[b]) <= 6000 {
      assert Placed(h, h.live[b]);
    }
  }

  /** Why a buffer may be closed only once: closing `a` again while `b` is being filled closes the chunk
      under `b`, and the next buffer opened overlaps `b` (or lies inside it, if empty) exactly if the second
      close moves the mark by less than the length of `b` and either it or the new buffer is not empty. */
  lemma ClosingTwiceOverlapsIff(h: Heap, t: ThreadId, a: BufferId, b: BufferId, w: nat, size: nat)
    requires Inv(h) && !h.crashed && t in h.local
    requires a in h.live && b in h.live && h.live[a].owner == h.live[b].owner == h.local[t]
    requires h.live[a].closed && !h.live[b].closed
    requires w <= h.live[a].allocSize && h.live[b].offset + w + size <= CHUNK_SIZE
    ensures var g := OpenBuffer(CloseBuffer(h, a, w), t, size);
            && !g.crashed && b in g.live && h.nextBuffer in g.live
            && (!Disjoint(g.live[b], g.live[h.nextBuffer]) <==> w < h.live[b].allocSize && 0 < w + size)
  {
    hide ChunksValid, OwnersValid, PushGlobal, PopReset, Replace;
    assert Placed(h, h.live[b]);
    assert b < h.nextBuffer;
  }

  /** On a working heap `Open` crashes exactly on an oversized request or on a nested open by the same
      thread; otherwise it always yields a buffer of the size asked for in the thread's current chunk.
      The "does not fit" result of the chunk is never seen. */
  lemma OpenAlwaysDelivers(h: Heap, t: ThreadId, size: nat)
    requires Inv(h) && !h.crashed
    ensures var g := OpenBuffer(h, t, size);
      && (g.crashed <==> size > 6000 || (t in h.local && h.chunks[h.local[t]].open))
      && (!g.crashed ==> exists at ::
            t in g.local && g.live == h.live[h.nextBuffer := SendBuffer(g.local[t], at, size, 0, false)])
  {
    hide PushGlobal, OpenInCurrent, Replace, PopReset, Inv;
    OwnersAreChunks(h);
    if t !in h.local { ReplaceKeepsInv(h, t); }
    var h1 := if t in h.local then h else Replace(h, t);
    if !h1.chunks[h1.local[t]].open {
      if FreeSize(h1.chunks[h1.local[t]]) < size { ReplaceKeepsInv(h1, t); }
      var h2 := if FreeSize(h1.chunks[h1.local[t]]) < size then Replace(h1, t) else h1;
      OpenInCurrentKeepsInv(h2, t, size);
      OpenKeepsThread(h2, t, size);
    }
  }

  /** The chunk a thread gets when it needs one. */
  function NextTaken(h: Heap): ChunkId {
    if h.pool == [] then h.nextChunk else h.pool[|h.pool| - 1]
  }

  /** Where `Open` puts the buffer: behind the last one in the thread's chunk exactly if it fits there, and then
      no chunk changes hands; otherwise at the front of the chunk freed last, or of a new one if none is free. */
  lemma OpenPlacesExactly(h: Heap, t: ThreadId, size: nat)
    requires Inv(h) && !h.crashed && size <= 6000 && !(t in h.local && h.chunks[h.local[t]].open)
    ensures var g := OpenBuffer(h, t, size);
            if t in h.local && h.chunks[h.local[t]].used + size <= 6000 then
              && g.live == h.live[h.nextBuffer := SendBuffer(h.local[t], h.chunks[h.local[t]].used, size, 0, false)]
              && g.pool == h.pool && g.local == h.local
            else
              && g.live == h.live[h.nextBuffer := SendBuffer(NextTaken(h), 0, size, 0, false)]
              && g.local == h.local[t := NextTaken(h)]
  {
    hide PushGlobal, Inv;
    OwnersAreChunks(h);
    ReplaceTakes(h, t);
    ReplaceKeepsInv(h, t);
    hide Replace;
    hide PopReset;
  }

  lemma ReplaceTakes(h: Heap, t: ThreadId)
    requires Inv(h)
    ensures Replace(h, t).local == h.local[t := NextTaken(h)]
  {
    hide Referenced, Inv, Zeros;
  }

  /** The pool is a stack: the chunk freed last is the one taken next. */
  lemma LastFreedIsNextTaken(h: Heap, c: ChunkId)
    requires !Referenced(h, c)
    ensures var freed := PushGlobal(h, c);
            var (g, taken) := PopReset(freed);
            taken == c && g.pool == h.pool
  {
    hide Referenced, Zeros;
  }

  /** Closing moves the mark to the end of what was written and closes the chunk, so that the next buffer begins
      where this one ends. */
  lemma CloseMovesMark(h: Heap, b: BufferId, writeSize: nat)
    requires Inv(h) && Possible(h, Close(b, writeSize)) && writeSize <= h.live[b].allocSize
    ensures var g := CloseBuffer(h, b, writeSize);
            var c := h.live[b].owner;
            && c in g.chunks && !g.chunks[c].open && g.chunks[c].used == h.live[b].offset + writeSize
            && g.live == h.live[b := h.live[b].(writeSize := writeSize, closed := true)]
            && g.local == h.local && g.pool == h.pool
  {
    assert Placed(h, h.live[b]);
  }

  lemma OpenKeepsThread(h: Heap, t: ThreadId, size: nat)
    requires t in h.local
    ensures OpenInCurrent(h, t, size).local == h.local
  {
  }

  // ---------------------------------------------------------------------------------------------
  // Bytes stay put
  // ---------------------------------------------------------------------------------------------

  /** The bytes buffer `b` owns. */
  ghost function Content(h: Heap, b: SendBuffer): seq<byte>
    requires Placed(h, b) && ChunksValid(h)
  {
    h.chunks[b.owner].memory[b.offset..b.offset + Extent(b)]
  }

  /** Nobody but a holder of `b` touches `b`. */
  predicate Touches(step: Step, b: BufferId) {
    (step.Write? || step.Close?) && step.b == b
  }

  lemma ReplaceKeepsBuffers(h: Heap, t: ThreadId)
    ensures Replace(h, t).live == h.live && Replace(h, t).nextBuffer == h.nextBuffer
  {
    hide Referenced, ChunkAt, Zeros;
  }

  lemma ReplaceKeepsMemory(h: Heap, t: ThreadId, c: ChunkId)
    requires Inv(h) && c in h.chunks
    ensures c in Replace(h, t).chunks && Replace(h, t).chunks[c].memory == h.chunks[c].memory
  {
    hide Referenced, Zeros, OwnersValid, BuffersValid;
    assert c < h.nextChunk;
  }

  /** `Open` adds at most one buffer, under a new identity. */
  lemma OpenKeepsBuffers(h: Heap, t: ThreadId, size: nat)
    ensures var g := OpenBuffer(h, t, size);
      h.nextBuffer <= g.nextBuffer &&
      forall b :: b < h.nextBuffer ==> (b in g.live <==> b in h.live) && (b in h.live ==> g.live[b] == h.live[b])
  {
    hide Replace, ChunkAt;
    ReplaceKeepsBuffers(h, t);
    ReplaceKeepsBuffers(if t in h.local then h else Replace(h, t), t);
  }

  lemma OpenKeepsMemory(h: Heap, t: ThreadId, size: nat, c: ChunkId)
    requires Inv(h) && c in h.chunks
    ensures c in OpenBuffer(h, t, size).chunks
    ensures OpenBuffer(h, t, size).chunks[c].memory == h.chunks[c].memory
  {
    hide Replace, Inv;
    var h1 := if t in h.local then h else Replace(h, t);
    if t !in h.local {
      ReplaceKeepsMemory(h, t, c);
      ReplaceKeepsInv(h, t);
    }
    ReplaceKeepsMemory(h1, t, c);
  }

  ghost predicate SameBuffer(h: Heap, g: Heap, b: BufferId) {
    && b in h.live && b in g.live && g.live[b] == h.live[b]
    && ChunksValid(h) && ChunksValid(g) && Placed(h, h.live[b]) && Placed(g, h.live[b])
    && Content(g, h.live[b]) == Content(h, h.live[b])
  }

  lemma OpenKeepsContent(h: Heap, t: ThreadId, size: nat, b: BufferId)
    requires Inv(h) && b in OpenBuffer(h, t, size).live && b < h.nextBuffer
    ensures SameBuffer(h, OpenBuffer(h, t, size), b)
  {
    hide OpenBuffer;
    OpenKeepsBuffers(h, t, size);
    assert Placed(h, h.live[b]);
    OpenKeepsMemory(h, t, size, h.live[b].owner);
    OpenKeepsInv(h, t, size);
    assert Placed(OpenBuffer(h, t, size), OpenBuffer(h, t, size).live[b]);
  }

  lemma WriteKeepsContent(h: Heap, a: BufferId, at: nat, value: byte, b: BufferId)
    requires Inv(h) && Possible(h, Write(a, at, value)) && a != b && b in h.live
    ensures SameBuffer(h, WriteByte(h, a, at, value), b)
  {
    assert Placed(h, h.live[a]) && Placed(h, h.live[b]) && Disjoint(h.live[a], h.live[b]);
    WriteKeepsInv(h, a, at, value);
  }

  lemma CloseKeepsContent(h: Heap, a: BufferId, writeSize: nat, b: BufferId)
    requires Inv(h) && Possible(h, Close(a, writeSize)) && a != b && b in h.live
    ensures SameBuffer(h, CloseBuffer(h, a, writeSize), b)
  {
    CloseKeepsInv(h, a, writeSize);
    var g := CloseBuffer(h, a, writeSize);
    assert Placed(h, h.live[b]) && Placed(g, g.live[b]);
  }

  lemma DropKeepsContent(h: Heap, step: Step, b: BufferId)
    requires Inv(h) && Possible(h, step) && (step.Release? || step.Exit?)
    requires b in Perform(h, step).live
    ensures SameBuffer(h, Perform(h, step), b)
  {
    hide Referenced, OwnersValid;
    assert Placed(h, h.live[b]);
  }

  lemma StepKeepsContent(h: Heap, step: Step, b: BufferId)
    requires Inv(h) && Possible(h, step) && !Touches(step, b)
    requires b in Perform(h, step).live && b < h.nextBuffer
    ensures Inv(Perform(h, step)) && SameBuffer(h, Perform(h, step), b)
    ensures h.nextBuffer <= Perform(h, step).nextBuffer
  {
    hide SameBuffer, Inv, OpenBuffer;
    StepKeepsInv(h, step);
    StepGrows(h, step);
    match step
    case Open(t, size) => OpenKeepsContent(h, t, size, b);
    case Close(a, writeSize) => CloseKeepsContent(h, a, writeSize, b);
    case Write(a, at, value) => WriteKeepsContent(h, a, at, value, b);
    case Release(_) => DropKeepsContent(h, step, b);
    case Exit(_) => DropKeepsContent(h, step, b);
  }

  /** Over any run of any number of threads, the bytes of a buffer stay what they were for as long as
      somebody refers to it and no holder of that very buffer writes to it. */
  lemma {:induction false} BytesStay(h: Heap, steps: seq<Step>, g: Heap, b: BufferId)
    requires Inv(h) && Run(h, steps, g)
    requires forall i :: 0 <= i < |steps| ==> !Touches(steps[i], b)
    requires b < h.nextBuffer && b in g.live
    ensures SameBuffer(h, g, b)
  {
    hide Perform, Possible, Touches;
    if steps == [] {
      assert Placed(g, g.live[b]);
    } else {
      var n := |steps| - 1;
      var m :| Run(h, steps[..n], m) && Possible(m, steps[n]) && g == Perform(m, steps[n]);
      RunGrows(h, steps[..n], m);
      StepKeepsContent(m, steps[n], b);
      BytesStay(h, steps[..n], m, b);
    }
  }

  lemma {:induction false} RunGrows(h: Heap, steps: seq<Step>, g: Heap)
    requires Inv(h) && Run(h, steps, g)
    ensures Inv(g) && h.nextBuffer <= g.nextBuffer
  {
    hide Perform, Possible, Inv;
    if steps != [] {
      var n := |steps| - 1;
      var m :| Run(h, steps[..n], m) && Possible(m, steps[n]) && g == Perform(m, steps[n]);
      RunGrows(h, steps[..n], m);
      StepKeepsInv(m, steps[n]);
      StepGrows(m, steps[n]);
    }
  }

  lemma StepGrows(h: Heap, step: Step)
    requires Possible(h, step)
    ensures h.nextBuffer <= Perform(h, step).nextBuffer
  {
    hide OpenBuffer, Referenced, ChunkAt;
    if step.Open? { OpenKeepsBuffers(h, step.t, step.size); }
  }

  // ---------------------------------------------------------------------------------------------
  // No chunk is lost
  // ---------------------------------------------------------------------------------------------

  ghost predicate AllReferencedBut(h: Heap, c: Option<ChunkId>) {
    forall d :: d in h.chunks && c != Some(d) ==> Referenced(h, d)
  }

  lemma PushGlobalReferences(h: Heap, c: ChunkId)
    requires AllReferencedBut(h, Some(c))
    ensures AllReferencedBut(PushGlobal(h, c), None)
  {
    var g := PushGlobal(h, c);
    forall d | d in g.chunks ensures Referenced(g, d) {
      if d != c { assert Referenced(h, d); }
    }
  }

  /** Handing a fresh or pooled chunk to thread `t` leaves at most the thread's old chunk unreferenced. */
  lemma TakeReferences(h: Heap, t: ThreadId)
    requires AllReferencedBut(h, None)
    ensures var (g, c) := PopReset(h);
      AllReferencedBut(g.(local := g.local[t := c]), if t in h.local then Some(h.local[t]) else None)
  {
    var (g, c) := PopReset(h);
    var g' := g.(local := g.local[t := c]);
    forall d | d in g'.chunks && !(t in h.local && d == h.local[t]) ensures Referenced(g', d) {
      if d == c {
        assert t in g'.local && g'.local[t] == d;
      } else {
        assert Referenced(h, d);
        if u :| u in h.local && h.local[u] == d {
          assert u in g'.local && g'.local[u] == d;
        } else if d in h.pool {
          var i :| 0 <= i < |h.pool| && h.pool[i] == d;
          assert g.pool[i] == d;
        }
      }
    }
  }

  lemma ReplaceReferences(h: Heap, t: ThreadId)
    requires AllReferencedBut(h, None)
    ensures AllReferencedBut(Replace(h, t), None)
  {
    hide AllReferencedBut, PopReset, PushGlobal;
    TakeReferences(h, t);
    if t in h.local {
      var (g, c) := PopReset(h);
      PushGlobalReferences(g.(local := g.local[t := c]), h.local[t]);
    }
  }

  lemma OpenInCurrentReferences(h: Heap, t: ThreadId, size: nat)
    requires AllReferencedBut(h, None) && t in h.local && h.local[t] in h.chunks && h.nextBuffer !in h.live
    ensures AllReferencedBut(OpenInCurrent(h, t, size), None)
  {
    var g := OpenInCurrent(h, t, size);
    forall d | d in g.chunks ensures Referenced(g, d) {
      assert Referenced(h, d);
      if b :| b in h.live && h.live[b].owner == d { assert b in g.live && g.live[b].owner == d; }
    }
  }

  lemma OpenReferences(h: Heap, t: ThreadId, size: nat)
    requires Inv(h) && AllReferencedBut(h, None)
    ensures AllReferencedBut(OpenBuffer(h, t, size), None)
  {
    hide AllReferencedBut, OpenInCurrent, Replace;
    var h1 := if t in h.local then h else Replace(h, t);
    if t !in h.local { ReplaceReferences(h, t); ReplaceKeepsInv(h, t); }
    var h2 := if FreeSize(ChunkAt(h1, h1.local[t])) < size then Replace(h1, t) else h1;
    ReplaceReferences(h1, t);
    ReplaceKeepsInv(h1, t);
    OpenInCurrentReferences(h2, t, size);
    CrashReferences(h1);
  }

  lemma CrashReferences(h: Heap)
    requires AllReferencedBut(h, None)
    ensures AllReferencedBut(h.(crashed := true), None)
  {
    forall d | d in h.chunks ensures Referenced(h.(crashed := true), d) { assert Referenced(h, d); }
  }

  lemma DropReferences(h: Heap, g: Heap, c: ChunkId)
    requires AllReferencedBut(h, None) && g.chunks == h.chunks && g.pool == h.pool
    requires (g.local == h.local && exists b :: b in h.live && h.live[b].owner == c && g.live == h.live - {b})
          || (g.live == h.live && exists t :: t in h.local && h.local[t] == c && g.local == h.local - {t})
    ensures AllReferencedBut(g, Some(c))
  {
    forall d | d in g.chunks && d != c ensures Referenced(g, d) {
      assert Referenced(h, d);
      if b :| b in h.live && h.live[b].owner == d { assert g.local == h.local ==> b in g.live; }
      if t :| t in h.local && h.local[t] == d { assert g.live == h.live ==> t in g.local; }
    }
  }

  lemma CloseReferences(h: Heap, b: BufferId, writeSize: nat)
    requires AllReferencedBut(h, None) && b in h.live && h.live[b].owner in h.chunks
    ensures AllReferencedBut(CloseBuffer(h, b, writeSize), None)
  {
    var g := CloseBuffer(h, b, writeSize);
    forall d | d in g.chunks ensures Referenced(g, d) {
      assert Referenced(h, d);
      if a :| a in h.live && h.live[a].owner == d { assert a in g.live && g.live[a].owner == d; }
    }
  }

  lemma WriteReferences(h: Heap, b: BufferId, at: nat, value: byte)
    requires AllReferencedBut(h, None) && b in h.live && h.live[b].owner in h.chunks
    ensures AllReferencedBut(WriteByte(h, b, at, value), None)
  {
    var g := WriteByte(h, b, at, value);
    forall d | d in g.chunks ensures Referenced(g, d) { assert Referenced(h, d); }
  }

  /** In every run every chunk ever allocated is referred to by a live buffer, a thread or the pool: the
      recycling never loses one. */
  lemma {:induction false} NoChunkIsLost(steps: seq<Step>, h: Heap)
    requires Run(EMPTY, steps, h)
    ensures forall c :: c in h.chunks ==> Referenced(h, c)
  {
    hide Perform, Possible, Referenced;
    if steps != [] {
      var n := |steps| - 1;
      var m :| Run(EMPTY, steps[..n], m) && Possible(m, steps[n]) && h == Perform(m, steps[n]);
      NoChunkIsLost(steps[..n], m);
      InvHolds(steps[..n], m);
      StepReferences(m, steps[n]);
    }
  }

  lemma StepReferences(h: Heap, step: Step)
    requires Inv(h) && Possible(h, step) && AllReferencedBut(h, None)
    ensures AllReferencedBut(Perform(h, step), None)
  {
    hide AllReferencedBut, Inv, PushGlobal, Placed;
    OwnersAreChunks(h);
    match step
    case Open(t, size) => OpenReferences(h, t, size);
    case Close(b, writeSize) => CloseReferences(h, b, writeSize);
    case Write(b, at, value) => WriteReferences(h, b, at, value);
    case Release(b) =>
      var g := h.(live := h.live - {b});
      DropReferences(h, g, h.live[b].owner);
      PushGlobalReferences(g, h.live[b].owner);
    case Exit(t) =>
      if t in h.local {
        var g := h.(local := h.local - {t});
        DropReferences(h, g, h.local[t]);
        PushGlobalReferences(g, h.local[t]);
      }
  }
}
