/** The reliable UDP session itself: the fields and the loops of ClientNetworkCore/Session.cpp, each
    method tied to the functions that the run theorems are about. */
module ReliableUdpSession {
  import opened Options
  import opened SerialNumber
  import opened ReceiveWindow
  import opened Bits32
  import opened AckField
  import opened PendingMap

  class ReliableUdpSession {
    var connected: bool
    var pendingAckMap: map<u16, PendingPacket>
    var receiveHistory: array<bool>
    var latestSeq: u16
    var sendSeq: u16
    /** The sequence field in the header of each send buffer this session has stamped. */
    var headers: map<BufferId, u16>
    /** What `RegisterSend` was asked to transmit: each buffer with the number it carried then. */
    var transmitted: seq<(BufferId, u16)>

    ghost predicate Valid()
      reads this
    {
      receiveHistory.Length == HISTORY_SIZE
    }

    ghost function SenderView(): Sender
      reads this
    {
      Sender(pendingAckMap, sendSeq, headers, connected)
    }

    ghost function WindowView(): Window
      requires Valid()
      reads this, receiveHistory
    {
      Window((set i | 0 <= i < receiveHistory.Length && receiveHistory[i]), latestSeq)
    }

    constructor ()
      ensures Valid() && fresh(receiveHistory)
      ensures SenderView() == FRESH_SENDER.(connected := false) && WindowView() == FRESH
      ensures transmitted == []
    {
      connected := false;
      pendingAckMap := map[];
      receiveHistory := new bool[HISTORY_SIZE](_ => false);
      latestSeq := 0;
      sendSeq := 1;
      headers := map[];
      transmitted := [];
    }

    method ProcessConnect()
      modifies this`connected
      ensures SenderView() == old(SenderView()).(connected := true)
    {
      connected := true;
    }

    method Disconnect()
      modifies this`connected
      ensures SenderView() == old(SenderView()).(connected := false)
    {
      connected := false;
    }

    method SendReliable(buffer: BufferId, timestamp: real)
      modifies this`sendSeq, this`headers, this`pendingAckMap, this`transmitted
      ensures SenderView() == PendingMap.SendReliable(old(SenderView()), buffer, timestamp)
      ensures transmitted == old(transmitted) + [(buffer, old(sendSeq))]
    {
      var s := sendSeq;
      sendSeq := Wrap(sendSeq + 1);
      headers := headers[buffer := s];
      pendingAckMap := pendingAckMap[s := PendingPacket(buffer, s, timestamp, 0)];
      transmitted := transmitted + [(buffer, s)];
    }

    /** Exactly the covered keys disappear; every other entry is untouched. */
    method HandleAck(latest: u16, field: bv32)
      modifies this`pendingAckMap
      ensures SenderView() == PendingMap.HandleAck(old(SenderView()), latest, field)
    {
      hide SerialNumber.Wrap, Before, TestBit, CoversFirst, Covers;
      ghost var before := pendingAckMap;
      forall k: u16 ensures !CoversFirst(latest, field, 0, k) { CoversNoneYet(latest, field, k); }
      var i := 0;
      while i <= 32
        invariant 0 <= i <= 33
        invariant forall k :: k in pendingAckMap <==> k in before && !CoversFirst(latest, field, i, k)
        invariant forall k :: k in pendingAckMap ==> pendingAckMap[k] == before[k]
        invariant SenderView() == old(SenderView()).(pending := pendingAckMap)
      {
        var ackSeq := Before(latest, i);
        forall k: u16 { CoversFirstStep(latest, field, i, k); }
        if i == 0 || TestBit(field, i - 1) {
          if ackSeq in pendingAckMap {
            pendingAckMap := pendingAckMap - {ackSeq};
          }
        }
        i := i + 1;
      }
      forall k: u16 ensures CoversFirst(latest, field, 33, k) <==> Covers(latest, field, k) {
        CoversFirstAll(latest, field, k);
      }
    }

    method CheckAndRecordReceiveHistory(s: u16) returns (accepted: bool)
      requires Valid()
      modifies this`latestSeq, receiveHistory
      ensures Valid()
      ensures accepted == Accepts(old(WindowView()), s)
      ensures WindowView() == Record(old(WindowView()), s)
    {
      if !IsSeqGreater(s, Wrap(latestSeq - HISTORY_SIZE)) {
        return false;
      }
      if receiveHistory[Slot(s)] {
        return false;
      }
      receiveHistory[Slot(s)] := true;
      latestSeq := if IsSeqGreater(s, latestSeq) then s else latestSeq;
      return true;
    }

    method GenerateAckBitfield(latest: u16) returns (field: bv32)
      requires Valid()
      ensures field == Encode(WindowView().history, latest)
    {
      hide Slot, SerialNumber.Wrap, IsSeqGreater, SetBit;
      field := 0;
      ghost var history := WindowView().history;
      var i := 1;
      while i <= 32
        invariant 1 <= i <= 33
        invariant field == EncodeFirst(history, latest, i - 1)
      {
        var s := Before(latest, i);
        EarlierIsSmaller(latest, i);
        if IsSeqGreater(latest, s) {
          assert 0 <= Slot(s) < HISTORY_SIZE by { SlotInRange(s); }
          if receiveHistory[Slot(s)] {
            field := SetBit(field, i - 1);
          }
        }
        i := i + 1;
      }
    }

    /** Both halves of the resend timer.  The map is visited in any order. */
    method Update(serverTime: real) returns (resendList: seq<u16>)
      modifies this`pendingAckMap, this`connected, this`sendSeq, this`headers, this`transmitted
      ensures ListsDue(old(SenderView()), serverTime, resendList)
      ensures SenderView() == PendingMap.Update(old(SenderView()), serverTime, resendList)
    {
      ghost var before := SenderView();
      resendList := ScanPending(serverTime);
      ghost var scanned := SenderView();
      var i := 0;
      while i < |resendList|
        invariant 0 <= i <= |resendList|
        invariant SenderView() == ResendAll(scanned, resendList[..i], serverTime)
      {
        assert resendList[..i + 1][..i] == resendList[..i];
        var s := resendList[i];
        if s in pendingAckMap {
          SendReliable(pendingAckMap[s].buffer, serverTime);
        }
        i := i + 1;
      }
      assert resendList[..i] == resendList;
    }

    method ScanPending(serverTime: real) returns (resendList: seq<u16>)
      modifies this`pendingAckMap, this`connected
      ensures ListsDue(old(SenderView()), serverTime, resendList)
      ensures SenderView() == Scan(old(SenderView()), serverTime)
    {
      hide Scanned, Bump, Due;
      ghost var before, wasConnected := pendingAckMap, connected;
      resendList := [];
      var todo := pendingAckMap.Keys;
      NothingScanned(before, serverTime, wasConnected);
      while todo != {}
        invariant Scanned(before, pendingAckMap, todo, resendList, serverTime, wasConnected, connected)
        invariant sendSeq == old(sendSeq) && headers == old(headers)
        decreases todo
      {
        var k :| k in todo;
        ScanOne(before, pendingAckMap, todo, resendList, serverTime, wasConnected, connected, k);
        var packet := pendingAckMap[k];
        BumpIs(packet, serverTime);
        if serverTime - packet.timestamp >= RESEND_INTERVAL {
          packet := packet.(timestamp := serverTime, retryCount := packet.retryCount + 1);
          resendList := resendList + [k];
        }
        pendingAckMap := pendingAckMap[k := packet];
        if packet.retryCount > MAX_RETRIES {
          Disconnect();
        }
        todo := todo - {k};
      }
      AllScanned(old(SenderView()), pendingAckMap, resendList, serverTime, connected);
    }

    /** The transport half of `HandlePacket`: the acknowledgement to send, if any.  The packet's own
        handler runs in every case and is not part of this method. */
    method AcknowledgePacket(sequence: u16) returns (ack: Option<(u16, bv32)>)
      requires Valid()
      modifies this`latestSeq, receiveHistory
      ensures Valid()
      ensures ack.Some? <==> sequence > 0 && Accepts(old(WindowView()), sequence)
      ensures WindowView() == if sequence > 0 then Record(old(WindowView()), sequence) else old(WindowView())
      ensures ack.Some? ==> ack.value == (sequence, Encode(WindowView().history, sequence))
    {
      ack := None;
      if sequence > 0 {
        var accepted := CheckAndRecordReceiveHistory(sequence);
        if accepted {
          var field := GenerateAckBitfield(sequence);
          ack := Some((sequence, field));
        }
      }
    }
  }

  /** The scan has been over every entry but those in `todo`. */
  ghost predicate Scanned(before: map<u16, PendingPacket>, pending: map<u16, PendingPacket>, todo: set<u16>,
                          list: seq<u16>, now: real, wasConnected: bool, connected: bool) {
    && todo <= before.Keys && pending.Keys == before.Keys
    && (forall k :: k in before ==> pending[k] == if k in todo then before[k] else Bump(before[k], now))
    && (forall k :: k in list <==> k in before && k !in todo && Due(before[k], now))
    && (forall i, j :: 0 <= i < j < |list| ==> list[i] != list[j])
    && (connected <==>
          wasConnected && forall k :: k in before && k !in todo ==> Bump(before[k], now).retryCount <= MAX_RETRIES)
  }

  lemma NothingScanned(before: map<u16, PendingPacket>, now: real, connected: bool)
    ensures Scanned(before, before, before.Keys, [], now, connected, connected)
  {
  }

  lemma BumpIs(p: PendingPacket, now: real)
    ensures Due(p, now) <==> now - p.timestamp >= RESEND_INTERVAL
    ensures Bump(p, now) == if Due(p, now) then p.(timestamp := now, retryCount := p.retryCount + 1) else p
  {
  }

  lemma ScanOne(before: map<u16, PendingPacket>, pending: map<u16, PendingPacket>, todo: set<u16>,
                list: seq<u16>, now: real, wasConnected: bool, connected: bool, k: u16)
    requires Scanned(before, pending, todo, list, now, wasConnected, connected) && k in todo
    ensures k in pending
    ensures var p := Bump(pending[k], now);
            Scanned(before, pending[k := p], todo - {k}, if Due(pending[k], now) then list + [k] else list, now,
                    wasConnected, connected && p.retryCount <= MAX_RETRIES)
  {
    hide Bump, Due;
    assert k !in list && pending[k] == before[k];
  }

  lemma AllScanned(s: Sender, pending: map<u16, PendingPacket>, list: seq<u16>, now: real, connected: bool)
    requires Scanned(s.pending, pending, {}, list, now, s.connected, connected)
    ensures ListsDue(s, now, list)
    ensures Scan(s, now) == s.(pending := pending, connected := connected)
  {
    hide Bump, Due;
    assert Scan(s, now).pending == pending;
  }

  lemma SlotInRange(s: u16)
    ensures 0 <= Slot(s) < HISTORY_SIZE
  {
  }

  /** The keys looked up in the first `n` rounds of `HandleAck`. */
  ghost predicate CoversFirst(latest: u16, field: bv32, n: nat, k: u16) {
    exists i :: 0 <= i < n && i <= 32 && (i == 0 || TestBit(field, i - 1)) && k == Before(latest, i)
  }

  lemma CoversNoneYet(latest: u16, field: bv32, k: u16)
    ensures !CoversFirst(latest, field, 0, k)
  {
  }

  lemma CoversFirstStep(latest: u16, field: bv32, n: nat, k: u16)
    requires n <= 32
    ensures CoversFirst(latest, field, n + 1, k) <==>
            CoversFirst(latest, field, n, k) || ((n == 0 || TestBit(field, n - 1)) && k == Before(latest, n))
  {
    hide SerialNumber.Wrap, Before, TestBit;
    if (n == 0 || TestBit(field, n - 1)) && k == Before(latest, n) {
      assert CoversFirst(latest, field, n + 1, k);
    }
  }

  lemma CoversFirstAll(latest: u16, field: bv32, k: u16)
    ensures CoversFirst(latest, field, 33, k) <==> Covers(latest, field, k)
  {
    hide SerialNumber.Wrap, TestBit;
    WrapSmall(latest);
    assert Before(latest, 0) == latest;
  }
}
