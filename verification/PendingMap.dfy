/** The send side of the reliable UDP session: numbering, the pending map, acknowledgement and timed
    resends (ClientNetworkCore/Session.cpp, `SendReliable`, `HandleAck`, `Update`). */
module PendingMap {
  import opened SerialNumber
  import opened ReceiveWindow
  import opened AckField

  /** The identity of a `SendBuffer`. */
  type BufferId = nat

  const RESEND_INTERVAL: real := 0.1
  const MAX_RETRIES: nat := 5

  datatype PendingPacket =
    PendingPacket(buffer: BufferId, sequence: u16, timestamp: real, retryCount: nat)

  /** `headers` is the sequence field in the header of each send buffer. */
  datatype Sender = Sender(
    pending: map<u16, PendingPacket>,
    sendSeq: u16,
    headers: map<BufferId, u16>,
    connected: bool)

  /** The `j`-th number issued from `base` on. */
  function Number(base: u16, j: nat): u16 {
    Wrap(base + j)
  }

  const FRESH_SENDER: Sender := Sender(map[], 1, map[], true)

  function SendReliable(s: Sender, buffer: BufferId, timestamp: real): Sender {
    s.(sendSeq := Wrap(s.sendSeq + 1),
       headers := s.headers[buffer := s.sendSeq],
       pending := s.pending[s.sendSeq := PendingPacket(buffer, s.sendSeq, timestamp, 0)])
  }

  /** The first half of `SendReliable`, before the lock: take a number and stamp the header. */
  function TakeNumber(s: Sender, buffer: BufferId): Sender {
    s.(sendSeq := Wrap(s.sendSeq + 1), headers := s.headers[buffer := s.sendSeq])
  }

  /** The second half, under the lock. */
  function InsertPending(s: Sender, p: PendingPacket): Sender {
    s.(pending := s.pending[p.sequence := p])
  }

  ghost function HandleAck(s: Sender, latest: u16, field: bv32): Sender {
    s.(pending := map k | k in s.pending && !Covers(latest, field, k) :: s.pending[k])
  }

  predicate Due(p: PendingPacket, now: real) {
    now - p.timestamp >= RESEND_INTERVAL
  }

  function Bump(p: PendingPacket, now: real): PendingPacket {
    if Due(p, now) then p.(timestamp := now, retryCount := p.retryCount + 1) else p
  }

  /** The locked first half of `Update`. */
  function Scan(s: Sender, now: real): Sender {
    var scanned := map k | k in s.pending :: Bump(s.pending[k], now);
    s.(pending := scanned,
       connected := s.connected && forall k :: k in scanned ==> scanned[k].retryCount <= MAX_RETRIES)
  }

  /** `order` is a resend list the scan can produce: the due keys, once each, in whatever order the
      hash map yields them. */
  ghost predicate ListsDue(s: Sender, now: real, order: seq<u16>) {
    && (forall k :: k in order <==> k in s.pending && Due(s.pending[k], now))
    && (forall i, j :: 0 <= i < j < |order| ==> order[i] != order[j])
  }

  /** One round of the unlocked second half of `Update`. */
  function Resend(s: Sender, k: u16, now: real): Sender {
    if k in s.pending then SendReliable(s, s.pending[k].buffer, now) else s
  }

  function ResendAll(s: Sender, order: seq<u16>, now: real): Sender {
    if order == [] then s
    else Resend(ResendAll(s, order[..|order| - 1], now), order[|order| - 1], now)
  }

  /** `Update` with nothing in between its two halves. */
  function Update(s: Sender, now: real, order: seq<u16>): Sender {
    ResendAll(Scan(s, now), order, now)
  }

  // ---------------------------------------------------------------------------------------------
  // One update
  // ---------------------------------------------------------------------------------------------

  /** The numbers about to be issued are free. */
  ghost predicate RoomFor(s: Sender, n: nat) {
    n < MODULUS && forall j :: 0 <= j < n ==> Number(s.sendSeq, j) !in s.pending
  }

  /** Every old entry is still there, and number `j` of the new ones is a copy of the `j`-th due entry
      under the next free number, its retry count back at zero. */
  ghost predicate ResentFrom(s: Sender, after: Sender, order: seq<u16>, now: real) {
    && after.sendSeq == Number(s.sendSeq, |order|)
    && after.connected == s.connected
    && |after.pending| == |s.pending| + |order|
    && (forall k :: k in after.pending <==>
                    k in s.pending || exists j :: 0 <= j < |order| && k == Number(s.sendSeq, j))
    && (forall k :: k in s.pending ==> after.pending[k] == s.pending[k])
    && (forall j :: 0 <= j < |order| ==>
          order[j] in s.pending && Number(s.sendSeq, j) in after.pending &&
          after.pending[Number(s.sendSeq, j)]
            == PendingPacket(s.pending[order[j]].buffer, Number(s.sendSeq, j), now, 0))
  }

  lemma NextNumbersDiffer(base: u16, i: nat, j: nat)
    requires i < j < MODULUS
    ensures Number(base, i) != Number(base, j)
  {
  }

  lemma WrapStep(base: u16, n: nat)
    ensures Wrap(Number(base, n) + 1) == Number(base, n + 1)
  {
    WrapSuccessor(base + n);
  }

  /** The next number is free, and not among those given out so far. */
  lemma NextIsFree(s: Sender, mid: Sender, order: seq<u16>, now: real)
    requires ResentFrom(s, mid, order, now) && RoomFor(s, |order| + 1)
    ensures mid.sendSeq == Number(s.sendSeq, |order|) && Number(s.sendSeq, |order|) !in mid.pending
  {
    hide SerialNumber.Wrap, Number;
    var n := |order|;
    forall j | 0 <= j < n ensures Number(s.sendSeq, j) != Number(s.sendSeq, n) {
      NextNumbersDiffer(s.sendSeq, j, n);
    }
  }

  lemma NewKeyGrows(pending: map<u16, PendingPacket>, k: u16, p: PendingPacket)
    requires k !in pending
    ensures |pending[k := p]| == |pending| + 1
  {
  }

  lemma OneMoreResend(s: Sender, mid: Sender, order: seq<u16>, k: u16, now: real)
    requires ResentFrom(s, mid, order, now)
    requires k in s.pending && RoomFor(s, |order| + 1)
    ensures ResentFrom(s, Resend(mid, k, now), order + [k], now)
  {
    hide SerialNumber.Wrap, Number, RoomFor;
    var n, order' := |order|, order + [k];
    var next := Number(s.sendSeq, n);
    NextIsFree(s, mid, order, now);
    WrapStep(s.sendSeq, n);
    var after := Resend(mid, k, now);
    assert after.pending == mid.pending[next := PendingPacket(s.pending[k].buffer, next, now, 0)];
    NewKeyGrows(mid.pending, next, after.pending[next]);
    forall j | 0 <= j < n + 1
      ensures order'[j] in s.pending && Number(s.sendSeq, j) in after.pending
      ensures after.pending[Number(s.sendSeq, j)]
           == PendingPacket(s.pending[order'[j]].buffer, Number(s.sendSeq, j), now, 0)
    {
      if j < n { assert order'[j] == order[j]; }
    }
    forall q ensures q in after.pending <==> q in s.pending || exists j :: 0 <= j < n + 1 && q == Number(s.sendSeq, j) {
      if q in mid.pending && q !in s.pending {
        var j :| 0 <= j < n && q == Number(s.sendSeq, j);
      }
    }
  }

  lemma {:induction false} ResendAllAdds(s: Sender, order: seq<u16>, now: real)
    requires forall k :: k in order ==> k in s.pending
    requires RoomFor(s, |order|)
    ensures ResentFrom(s, ResendAll(s, order, now), order, now)
  {
    if order != [] {
      var n := |order| - 1;
      assert order == order[..n] + [order[n]];
      ResendAllAdds(s, order[..n], now);
      OneMoreResend(s, ResendAll(s, order[..n], now), order[..n], order[n], now);
    }
  }

  /** An update removes no entry and adds exactly one per due entry. */
  lemma UpdateAddsOnePerDue(s: Sender, now: real, order: seq<u16>)
    requires ListsDue(s, now, order) && RoomFor(s, |order|)
    ensures ResentFrom(Scan(s, now), Update(s, now, order), order, now)
    ensures Scan(s, now).pending.Keys == s.pending.Keys
    ensures forall k :: k in s.pending ==> Update(s, now, order).pending[k] == Bump(s.pending[k], now)
    ensures |Update(s, now, order).pending| == |s.pending| + |order|
  {
    var scanned := Scan(s, now);
    assert scanned.pending.Keys == s.pending.Keys;
    assert |scanned.pending| == |scanned.pending.Keys| && |s.pending| == |s.pending.Keys|;
    assert RoomFor(scanned, |order|);
    ResendAllAdds(scanned, order, now);
  }

  // ---------------------------------------------------------------------------------------------
  // One acknowledgement
  // ---------------------------------------------------------------------------------------------

  /** What the peer encodes is what the sender erases: from any pending map, exactly the entries under
      `latest` and under those of the 32 numbers before it whose history bit the peer has set. */
  lemma AckErasesExactly(s: Sender, history: set<int>, latest: u16, k: u16)
    ensures var pending := HandleAck(s, latest, Encode(history, latest)).pending;
            && (k in pending <==>
                k in s.pending && k != latest &&
                forall i: nat :: 1 <= i <= 32 && k == Back(latest, i) ==> k % 1024 !in history)
            && (k in pending ==> pending[k] == s.pending[k])
  {
    hide Encode, Covers, Back;
    CoversInNumbers(history, latest, k);
  }
}
