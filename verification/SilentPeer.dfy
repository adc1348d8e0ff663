/** What one reliable packet costs when the peer never acknowledges it.  Every update that finds an
    entry due leaves the entry in place and adds a copy under a new number, so the pending map doubles
    (ClientNetworkCore/Session.cpp, `Update`). */
module SilentPeer {
  import opened SerialNumber
  import opened PendingMap

  /** One update: its time and the resend list it produced. */
  datatype Tick = Tick(now: real, order: seq<u16>)

  function AfterTicks(s: Sender, ticks: seq<Tick>): Sender {
    if ticks == [] then s
    else
      var k := |ticks| - 1;
      Update(AfterTicks(s, ticks[..k]), ticks[k].now, ticks[k].order)
  }

  function LastTime(start: real, ticks: seq<Tick>): real {
    if ticks == [] then start else ticks[|ticks| - 1].now
  }

  /** Updates at least a tenth of a second apart, each with a resend list its scan can produce. */
  ghost predicate SpacedTicks(s: Sender, start: real, ticks: seq<Tick>) {
    ticks != [] ==>
      var k := |ticks| - 1;
      && SpacedTicks(s, start, ticks[..k])
      && ticks[k].now - LastTime(start, ticks[..k]) >= 0.1
      && ListsDue(AfterTicks(s, ticks[..k]), ticks[k].now, ticks[k].order)
  }

  function Pow2(n: nat): nat {
    if n == 0 then 1 else 2 * Pow2(n - 1)
  }

  /** `size` copies of one packet, numbered 1 to `size`, all last touched at time `t`; number 1 has been
      resent `updates` times and no other copy more often. */
  ghost predicate Backlog(s: Sender, size: nat, updates: nat, buffer: BufferId, t: real) {
    && 1 <= size < MODULUS
    && s.sendSeq == Wrap(size + 1)
    && (forall k: u16 :: k in s.pending <==> 1 <= k <= size)
    && |s.pending| == size
    && (forall k: u16 :: k in s.pending ==>
          s.pending[k].buffer == buffer && s.pending[k].timestamp == t && s.pending[k].retryCount <= updates)
    && s.pending[1].retryCount == updates
    && (s.connected <==> updates < 6)
  }

  lemma {:induction false} ListingLength(keys: set<u16>, order: seq<u16>)
    requires forall k :: k in order <==> k in keys
    requires forall i, j :: 0 <= i < j < |order| ==> order[i] != order[j]
    ensures |order| == |keys|
  {
    if order == [] {
      assert keys == {};
    } else {
      var n := |order| - 1;
      assert order == order[..n] + [order[n]];
      assert order[n] !in order[..n];
      ListingLength(keys - {order[n]}, order[..n]);
    }
  }

  lemma AllAreListed(s: Sender, size: nat, updates: nat, buffer: BufferId, t: real, tick: Tick)
    requires Backlog(s, size, updates, buffer, t)
    requires tick.now - t >= 0.1 && ListsDue(s, tick.now, tick.order)
    ensures |tick.order| == size
  {
    ListingLength(s.pending.Keys, tick.order);
  }

  lemma NextNumbers(size: nat, j: nat)
    requires 1 <= size && j < size && 2 * size < MODULUS
    ensures Number(Wrap(size + 1), j) == size + 1 + j
  {
    WrapSmall(size + 1);
    WrapSmall(size + 1 + j);
  }

  lemma LastNumber(size: nat)
    requires 1 <= size && 2 * size < MODULUS
    ensures Number(Wrap(size + 1), size) == Wrap(2 * size + 1)
  {
    WrapSmall(size + 1);
  }

  /** The scan touches every copy; the session survives it exactly while the oldest copy may. */
  lemma ScanOfBacklog(s: Sender, size: nat, updates: nat, buffer: BufferId, t: real, now: real)
    requires Backlog(s, size, updates, buffer, t) && now - t >= 0.1
    ensures Backlog(Scan(s, now), size, updates + 1, buffer, now)
  {
    hide SerialNumber.Wrap;
    var s' := Scan(s, now);
    assert s'.pending.Keys == s.pending.Keys;
    forall k: u16 | k in s'.pending ensures s'.pending[k] == Bump(s.pending[k], now) {}
  }

  lemma CopiesDouble(s: Sender, s': Sender, size: nat, updates: nat, buffer: BufferId, now: real, order: seq<u16>)
    requires Backlog(s, size, updates, buffer, now) && 2 * size < MODULUS
    requires ResentFrom(s, s', order, now) && |order| == size
    ensures Backlog(s', 2 * size, updates, buffer, now)
  {
    hide SerialNumber.Wrap, Number;
    LastNumber(size);
    forall j | 0 <= j < size ensures Number(s.sendSeq, j) == size + 1 + j { NextNumbers(size, j); }
    forall k: u16 ensures k in s'.pending <==> 1 <= k <= 2 * size {
      if size < k <= 2 * size { assert k == Number(s.sendSeq, k - size - 1); }
    }
    forall k: u16 | k in s'.pending && k !in s.pending
      ensures s'.pending[k].buffer == buffer && s'.pending[k].timestamp == now && s'.pending[k].retryCount == 0
    {
      var j :| 0 <= j < size && k == Number(s.sendSeq, j);
      assert order[j] in s.pending;
    }
  }

  lemma RoomForCopies(s: Sender, size: nat, updates: nat, buffer: BufferId, t: real)
    requires Backlog(s, size, updates, buffer, t) && 2 * size < MODULUS
    ensures RoomFor(s, size)
  {
    hide SerialNumber.Wrap, Number;
    forall j | 0 <= j < size ensures Number(s.sendSeq, j) !in s.pending { NextNumbers(size, j); }
  }

  lemma BacklogDoubles(s: Sender, size: nat, updates: nat, buffer: BufferId, t: real, tick: Tick)
    requires Backlog(s, size, updates, buffer, t) && 2 * size < MODULUS
    requires tick.now - t >= 0.1 && ListsDue(s, tick.now, tick.order)
    ensures Backlog(Update(s, tick.now, tick.order), 2 * size, updates + 1, buffer, tick.now)
  {
    hide *;
    AllAreListed(s, size, updates, buffer, t, tick);
    RoomForCopies(s, size, updates, buffer, t);
    UpdateAddsOnePerDue(s, tick.now, tick.order);
    ScanOfBacklog(s, size, updates, buffer, t, tick.now);
    CopiesDouble(Scan(s, tick.now), Update(s, tick.now, tick.order), size, updates + 1, buffer, tick.now, tick.order);
  }

  /** After `n` spaced updates without an acknowledgement one packet has become 2^n pending copies, and
      the session has been disconnected exactly if `n` is at least six; resending goes on regardless. */
  lemma {:induction false} SilentPeerDoubles(buffer: BufferId, start: real, ticks: seq<Tick>)
    requires Pow2(|ticks|) < MODULUS
    requires SpacedTicks(SendReliable(FRESH_SENDER, buffer, start), start, ticks)
    ensures Backlog(AfterTicks(SendReliable(FRESH_SENDER, buffer, start), ticks),
                    Pow2(|ticks|), |ticks|, buffer, LastTime(start, ticks))
  {
    hide Update;
    var s := SendReliable(FRESH_SENDER, buffer, start);
    if ticks == [] {
      assert s.pending == map[1 := PendingPacket(buffer, 1, start, 0)];
    } else {
      var k := |ticks| - 1;
      SilentPeerDoubles(buffer, start, ticks[..k]);
      BacklogDoubles(AfterTicks(s, ticks[..k]), Pow2(k), k, buffer, LastTime(start, ticks[..k]), ticks[k]);
    }
  }
}
