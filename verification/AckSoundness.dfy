/** Exactly when acknowledgements can be trusted: over all runs of two sessions and the network, for every
    number of packets issued and every set of stale numbers (ClientNetworkCore/Session.cpp;
    DummyClient/ServerPacketHandler.h, `HandlePacket`). */
module AckSoundness {
  import opened SerialNumber
  import opened ReceiveWindow
  import opened AckField
  import opened PendingMap
  import opened SenderRuns
  import opened AckProtocol
  import opened FalseClaims

  /** Every key erased had been accepted by the peer. */
  ghost predicate Sound(w: World) {
    w.erased <= w.accepted
  }

  /** Every key erased belongs to a reliable packet that arrived. */
  ghost predicate SoundDelivery(w: World) {
    w.erased <= w.arrived
  }

  ghost predicate SoundUpTo(n: nat, stale: set<u16>) {
    forall steps :: PossibleRun(steps, stale) && WorldAfter(steps).issued <= n ==> Sound(WorldAfter(steps))
  }

  ghost predicate SoundDeliveryUpTo(n: nat, stale: set<u16>) {
    forall steps :: PossibleRun(steps, stale) && WorldAfter(steps).issued <= n ==> SoundDelivery(WorldAfter(steps))
  }

  // ---------------------------------------------------------------------------------------------
  // From runs to acceptance lists
  // ---------------------------------------------------------------------------------------------

  ghost predicate HeldInRange(taken: map<ThreadId, PendingPacket>, issued: nat) {
    forall t :: t in taken ==> 1 <= taken[t].sequence <= issued
  }

  ghost predicate KeysInRange(keys: set<u16>, issued: nat) {
    forall k :: k in keys ==> 1 <= k <= issued
  }

  /** The numbers in play are the ones issued, as long as issuing has not wrapped. */
  ghost predicate InRange(w: World) {
    && w.session.sender.sendSeq == Wrap(w.issued + 1)
    && HeldInRange(w.session.taken, w.issued)
    && KeysInRange(w.session.sender.pending.Keys, w.issued)
    && KeysInRange(w.sent, w.issued)
    && KeysInRange(w.erased, w.issued)
    && KeysInRange(w.arrived, w.issued)
  }

  lemma LocalKeepsInRange(w: World, e: Event)
    requires InRange(w) && !e.Ack?
    requires Perform(w, Local(e)).issued < MODULUS
    ensures InRange(Perform(w, Local(e)))
  {
    hide SerialNumber.Wrap;
    if Issues(w.session, e) {
      WrapSmall(w.issued + 1);
      WrapSuccessor(w.issued + 1);
    }
  }

  lemma StepKeepsInRange(w: World, step: Step, stale: set<u16>)
    requires InRange(w) && Possible(w, step, stale)
    requires Perform(w, step).issued < MODULUS
    ensures InRange(Perform(w, step))
  {
    hide Covers, SerialNumber.Wrap, Accepts, Record, Encode;
    if step.Local? {
      LocalKeepsInRange(w, step.event);
    }
  }

  lemma {:induction false} EveryRunIsInRange(steps: seq<Step>, stale: set<u16>)
    requires PossibleRun(steps, stale) && WorldAfter(steps).issued < MODULUS
    ensures InRange(WorldAfter(steps))
  {
    hide Possible, SerialNumber.Wrap, InRange;
    if steps == [] {
      StartIsInRange();
    } else {
      var before, step := steps[..|steps| - 1], steps[|steps| - 1];
      IssuedGrows(WorldAfter(before), step);
      EveryRunIsInRange(before, stale);
      StepKeepsInRange(WorldAfter(before), step, stale);
    }
  }

  lemma StartIsInRange()
    ensures InRange(START)
  {
    WrapSmall(1);
  }

  lemma IssuedGrows(w: World, step: Step)
    ensures w.issued <= Perform(w, step).issued
  {
  }

  /** The list of accepted numbers determines the window, and every acknowledgement was sent on accepting
      the last number of some prefix of it. */
  ghost predicate Tracks(w: World, acc: seq<u16>) {
    && AllAccepted(acc) && w.window == RecordAll(FRESH, acc)
    && (forall a :: a in acc <==> a in w.accepted)
    && (forall ack :: ack in w.acks ==> exists p: nat :: SentAfter(ack, acc, p))
    && (forall k :: k in w.erased ==> exists ack :: ack in w.acks && Covers(ack.latest, ack.field, k))
  }

  ghost predicate SentAfter(ack: Acknowledgement, acc: seq<u16>, p: nat) {
    && 0 < p <= |acc| && AllAccepted(acc[..p])
    && ack == Acknowledgement(acc[p - 1], Encode(RecordAll(FRESH, acc[..p]).history, acc[p - 1]))
  }

  lemma ReceiveKeepsTracks(w: World, s: u16, acc: seq<u16>)
    requires Tracks(w, acc)
    ensures Tracks(Receive(w, s), if s > 0 && Accepts(w.window, s) then acc + [s] else acc)
  {
    hide Accepts, Record, Encode, Covers, AllAccepted, RecordAll;
    if s > 0 && Accepts(w.window, s) {
      var w', acc' := Receive(w, s), acc + [s];
      assert Init(acc') == acc && Last(acc') == s;
      InitAndLast(acc');
      forall ack | ack in w'.acks ensures exists p: nat :: SentAfter(ack, acc', p) {
        if ack in w.acks {
          var p: nat :| SentAfter(ack, acc, p);
          assert acc'[..p] == acc[..p];
          assert SentAfter(ack, acc', p);
        } else {
          assert acc'[..|acc'|] == acc';
          assert SentAfter(ack, acc', |acc'|);
        }
      }
    }
  }

  lemma {:induction false} EveryRunIsTracked(steps: seq<Step>, stale: set<u16>) returns (acc: seq<u16>)
    requires PossibleRun(steps, stale)
    ensures Tracks(WorldAfter(steps), acc)
    ensures forall a :: a in acc ==> a != 0 && (a in WorldAfter(steps).arrived || a in stale)
    ensures WorldAfter(steps).arrived <= WorldAfter(steps).sent
  {
    hide Covers, Next, Issues, Enabled, Transmits, Accepts, Record, Encode, Tracks;
    if steps == [] {
      acc := [];
      StartIsTracked();
    } else {
      var before, step := steps[..|steps| - 1], steps[|steps| - 1];
      acc := EveryRunIsTracked(before, stale);
      var w := WorldAfter(before);
      match step
      case DeliverData(s) =>
        ArrivalKeepsTracks(w, s, acc);
        ReceiveKeepsTracks(w.(arrived := w.arrived + {s}), s, acc);
        acc := if s > 0 && Accepts(w.window, s) then acc + [s] else acc;
      case DeliverStray(s) =>
        ReceiveKeepsTracks(w, s, acc);
        acc := if s > 0 && Accepts(w.window, s) then acc + [s] else acc;
      case Local(e) => LocalKeepsTracks(w, e, acc);
      case DeliverAck(ack) => AckKeepsTracks(w, ack, acc);
    }
  }

  lemma StartIsTracked()
    ensures Tracks(START, [])
  {
  }

  lemma ArrivalKeepsTracks(w: World, s: u16, acc: seq<u16>)
    requires Tracks(w, acc)
    ensures Tracks(w.(arrived := w.arrived + {s}), acc)
  {
    hide AllAccepted, SentAfter, Covers;
  }

  lemma LocalKeepsTracks(w: World, e: Event, acc: seq<u16>)
    requires Tracks(w, acc)
    ensures Tracks(Perform(w, Local(e)), acc)
  {
    hide AllAccepted, SentAfter, Covers, Next, Issues, Transmits;
  }

  lemma AckKeepsTracks(w: World, ack: Acknowledgement, acc: seq<u16>)
    requires Tracks(w, acc) && ack in w.acks
    ensures Tracks(Perform(w, DeliverAck(ack)), acc)
  {
    hide AllAccepted, SentAfter, Covers, Next;
  }

  /** A key erased without having been accepted was claimed falsely. */
  lemma FalseEraseIsFalseClaim(steps: seq<Step>, stale: set<u16>, k: u16) returns (acc: seq<u16>)
    requires PossibleRun(steps, stale) && WorldAfter(steps).issued < MODULUS
    requires k in WorldAfter(steps).erased && k !in WorldAfter(steps).accepted
    ensures 1 <= k <= WorldAfter(steps).issued
    ensures AllReceivable(acc, WorldAfter(steps).issued, stale) && FalseClaim(acc, k)
  {
    hide WorldAfter, PossibleRun, AllAccepted, RecordAll, Encode, Covers, Wrap;
    var w := WorldAfter(steps);
    var all := EveryRunIsTracked(steps, stale);
    EveryRunIsInRange(steps, stale);
    var ack :| ack in w.acks && Covers(ack.latest, ack.field, k);
    var p: nat :| SentAfter(ack, all, p);
    acc := all[..p];
    assert forall a :: a in acc ==> a in all;
    assert Last(acc) == ack.latest;
  }

  // ---------------------------------------------------------------------------------------------
  // From acceptance lists to runs
  // ---------------------------------------------------------------------------------------------

  const CALLER: ThreadId := 1

  /** A sender that issues 1, ..., n and hears nothing. */
  function Sends(n: nat): seq<Step> {
    if n == 0 then []
    else Sends(n - 1) + [Local(Take(CALLER, 0, 0.0)), Local(Insert(CALLER))]
  }

  lemma Extend(steps: seq<Step>, step: Step, stale: set<u16>)
    requires PossibleRun(steps, stale) && Possible(WorldAfter(steps), step, stale)
    ensures PossibleRun(steps + [step], stale)
    ensures WorldAfter(steps + [step]) == Perform(WorldAfter(steps), step)
  {
    assert (steps + [step])[..|steps|] == steps;
  }

  ghost predicate OnlySent(w: World, n: nat) {
    && w.issued == n && w.window == FRESH && w.session.taken == map[]
    && w.accepted == {} && w.erased == {} && w.arrived == {}
    && w.session.sender.sendSeq == Wrap(n + 1)
    && (forall k: u16 :: 1 <= k <= n ==> k in w.session.sender.pending && k in w.sent)
  }

  lemma OneMoreSend(w: World, n: nat)
    requires OnlySent(w, n) && n + 1 < MODULUS
    ensures OnlySent(Perform(Perform(w, Local(Take(CALLER, 0, 0.0))), Local(Insert(CALLER))), n + 1)
  {
    hide Wrap;
    WrapSmall(n + 1);
    WrapSuccessor(n + 1);
    var p := PendingPacket(0, w.session.sender.sendSeq, 0.0, 0);
    assert map[CALLER := p] - {CALLER} == map[];
  }

  lemma {:induction false} AfterSends(n: nat, stale: set<u16>)
    requires n < MODULUS
    ensures PossibleRun(Sends(n), stale) && OnlySent(WorldAfter(Sends(n)), n)
  {
    hide Perform, OnlySent, PossibleRun, WorldAfter;
    if n == 0 {
      NothingSent(stale);
    } else {
      AfterSends(n - 1, stale);
      var w := WorldAfter(Sends(n - 1));
      SendIsPossible(w, n - 1, stale);
      var take, insert := Local(Take(CALLER, 0, 0.0)), Local(Insert(CALLER));
      Extend(Sends(n - 1), take, stale);
      Extend(Sends(n - 1) + [take], insert, stale);
      assert Sends(n) == Sends(n - 1) + [take] + [insert];
      OneMoreSend(w, n - 1);
    }
  }

  lemma NothingSent(stale: set<u16>)
    ensures PossibleRun([], stale) && OnlySent(WorldAfter([]), 0)
  {
    WrapSmall(1);
  }

  lemma SendIsPossible(w: World, n: nat, stale: set<u16>)
    requires OnlySent(w, n)
    ensures Possible(w, Local(Take(CALLER, 0, 0.0)), stale)
    ensures Possible(Perform(w, Local(Take(CALLER, 0, 0.0))), Local(Insert(CALLER)), stale)
  {
  }

  function Delivery(s: u16, n: nat): Step {
    if s <= n then DeliverData(s) else DeliverStray(s)
  }

  function Deliveries(acc: seq<u16>, n: nat): seq<Step> {
    if acc == [] then [] else Deliveries(Init(acc), n) + [Delivery(Last(acc), n)]
  }

  function AckFor(acc: seq<u16>): Acknowledgement
    requires acc != []
  {
    Acknowledgement(Last(acc), Encode(RecordAll(FRESH, acc).history, Last(acc)))
  }

  ghost predicate HasDelivered(w: World, before: World, acc: seq<u16>) {
    && w == before.(window := w.window, arrived := w.arrived, accepted := w.accepted, acks := w.acks)
    && w.window == RecordAll(FRESH, acc)
    && (forall a :: a in w.accepted ==> a in acc) && (forall a :: a in w.arrived ==> a in acc)
    && (acc != [] ==> AckFor(acc) in w.acks)
  }

  lemma OneMoreDelivery(w: World, before: World, acc: seq<u16>, n: nat, stale: set<u16>)
    requires acc != [] && AllAccepted(acc) && Receivable(Last(acc), n, stale)
    requires OnlySent(before, n) && HasDelivered(w, before, Init(acc))
    ensures Possible(w, Delivery(Last(acc), n), stale)
    ensures HasDelivered(Perform(w, Delivery(Last(acc), n)), before, acc)
  {
    hide Accepts, Record, Encode, RecordAll, AllAccepted, Wrap;
    InitAndLast(acc);
  }

  lemma {:induction false} DeliverAll(acc: seq<u16>, n: nat, stale: set<u16>)
    requires n < MODULUS && AllAccepted(acc) && AllReceivable(acc, n, stale)
    ensures PossibleRun(Sends(n) + Deliveries(acc, n), stale)
    ensures OnlySent(WorldAfter(Sends(n)), n)
    ensures HasDelivered(WorldAfter(Sends(n) + Deliveries(acc, n)), WorldAfter(Sends(n)), acc)
  {
    hide PossibleRun, WorldAfter, Perform, Possible, OnlySent, HasDelivered, AllAccepted, Sends, Delivery;
    AfterSends(n, stale);
    var before := WorldAfter(Sends(n));
    if acc == [] {
      assert Sends(n) + [] == Sends(n);
      NothingDelivered(before, n);
    } else {
      InitAndLast(acc);
      assert forall s :: s in Init(acc) ==> s in acc;
      DeliverAll(Init(acc), n, stale);
      var steps := Sends(n) + Deliveries(Init(acc), n);
      OneMoreDelivery(WorldAfter(steps), before, acc, n, stale);
      Extend(steps, Delivery(Last(acc), n), stale);
      assert Sends(n) + Deliveries(acc, n) == steps + [Delivery(Last(acc), n)];
    }
  }

  lemma NothingDelivered(before: World, n: nat)
    requires OnlySent(before, n)
    ensures HasDelivered(before, before, [])
  {
  }

  /** A false claim among the numbers at hand can be made to erase the entry it claims, although nothing
      numbered so was accepted, or even arrived. */
  lemma FalseClaimErases(acc: seq<u16>, k: u16, n: nat, stale: set<u16>) returns (steps: seq<Step>)
    requires FalseClaim(acc, k) && AllReceivable(acc, n, stale) && 1 <= k <= n < MODULUS
    ensures PossibleRun(steps, stale) && WorldAfter(steps).issued == n
    ensures k in WorldAfter(steps).erased && k !in WorldAfter(steps).accepted && k !in WorldAfter(steps).arrived
  {
    hide PossibleRun, WorldAfter, AllAccepted, Covers, Encode, RecordAll, Wrap;
    DeliverAll(acc, n, stale);
    var delivered := Sends(n) + Deliveries(acc, n);
    Extend(delivered, DeliverAck(AckFor(acc)), stale);
    steps := delivered + [DeliverAck(AckFor(acc))];
  }

  // ---------------------------------------------------------------------------------------------
  // Soundness
  // ---------------------------------------------------------------------------------------------

  ghost predicate NoFalseClaim(n: nat, stale: set<u16>) {
    forall acc: seq<u16>, k: u16 :: 1 <= k <= n && AllReceivable(acc, n, stale) ==> !FalseClaim(acc, k)
  }

  /** For every set of stale numbers: the sender, the network and all timing drop out, and what remains is
      whether the receiver alone can be led to a false claim. */
  lemma SoundIffNoFalseClaim(n: nat, stale: set<u16>)
    requires n < MODULUS
    ensures SoundUpTo(n, stale) <==> NoFalseClaim(n, stale)
  {
    hide PossibleRun, WorldAfter, FalseClaim;
    if !NoFalseClaim(n, stale) {
      var acc: seq<u16>, k: u16 :| 1 <= k <= n && AllReceivable(acc, n, stale) && FalseClaim(acc, k);
      FalseClaimIsUnsound(acc, k, n, stale);
    }
    if !SoundUpTo(n, stale) {
      var steps :| PossibleRun(steps, stale) && WorldAfter(steps).issued <= n && !Sound(WorldAfter(steps));
      var k :| k in WorldAfter(steps).erased && k !in WorldAfter(steps).accepted;
      var acc := FalseEraseIsFalseClaim(steps, stale, k);
      assert AllReceivable(acc, n, stale);
    }
  }

  lemma FalseClaimIsUnsound(acc: seq<u16>, k: u16, n: nat, stale: set<u16>)
    requires FalseClaim(acc, k) && AllReceivable(acc, n, stale) && 1 <= k <= n < MODULUS
    ensures !SoundUpTo(n, stale) && !SoundDeliveryUpTo(n, stale)
  {
    hide PossibleRun, WorldAfter, FalseClaim;
    var steps := FalseClaimErases(acc, k, n, stale);
    assert !Sound(WorldAfter(steps)) && !SoundDelivery(WorldAfter(steps));
  }

  /** Of 1025 packets only number 1025 and then number 2 arrive.  The second acknowledgement claims
      number 1 as well, because 1025 has set its history bit. */
  lemma FalseAckHappens(stale: set<u16>) returns (steps: seq<Step>)
    ensures PossibleRun(steps, stale) && WorldAfter(steps).issued == 1025
    ensures 1 in WorldAfter(steps).erased && 1 !in WorldAfter(steps).accepted && 1 !in WorldAfter(steps).arrived
  {
    hide FalseClaim;
    HarmfulClaims(1025, 1, 1);
    steps := FalseClaimErases([1025, 2], 1, 1025, stale);
  }

  /** Acknowledgements never erase a packet the peer has not accepted, over every run of at most `n` issued
      numbers, if and only if `n` is at most 1024 and the stale numbers are harmless. */
  lemma SoundExactlyIf(n: nat, stale: set<u16>)
    requires forall s :: s in stale ==> Straight(s)
    ensures SoundUpTo(n, stale) <==> n <= 1024 && Harmless(n, stale)
  {
    hide FalseClaim, PossibleRun, WorldAfter, Straight, Harmless;
    if n <= HISTORY_SIZE {
      NoFalseClaimIffHarmless(n, stale);
      SoundIffNoFalseClaim(n, stale);
    } else {
      var steps := FalseAckHappens(stale);
      assert !Sound(WorldAfter(steps));
    }
  }

  /** In terms of bounds: stale numbers up to `m` are safe with up to `n` issued numbers exactly if neither
      bound exceeds 1024, or nothing is issued at all. */
  lemma SoundExactlyUpTo1024(n: nat, m: nat)
    ensures (forall stale: set<u16> :: (forall s :: s in stale ==> s <= m) ==> SoundUpTo(n, stale)) <==>
            n == 0 || (n <= 1024 && m <= 1024)
  {
    hide SoundUpTo;
    if n == 0 || (n <= HISTORY_SIZE && m <= HISTORY_SIZE) {
      forall stale: set<u16> | forall s :: s in stale ==> s <= m ensures SoundUpTo(n, stale) {
        if n == 0 {
          SoundIffNoFalseClaim(n, stale);
        } else {
          SoundExactlyIf(n, stale);
        }
      }
    } else if n > HISTORY_SIZE {
      SoundExactlyIf(n, {});
    } else {
      SoundExactlyIf(n, {1025, 2});
      assert Exposed(n, {1025, 2}, 1, 1);
    }
  }

  lemma StrayIsUnsound(s: u16, n: nat, stale: set<u16>)
    requires 1 <= s <= n <= HISTORY_SIZE && s in stale
    ensures !SoundDeliveryUpTo(n, stale)
  {
    hide PossibleRun, WorldAfter, Encode, Covers, Accepts, Record;
    AfterSends(n, stale);
    StraightAccepts(FRESH, s);
    var window := Record(FRESH, s);
    var ack := Acknowledgement(s, Encode(window.history, s));
    EncodeDecodeExact(window.history, s, s);
    Extend(Sends(n), DeliverStray(s), stale);
    Extend(Sends(n) + [DeliverStray(s)], DeliverAck(ack), stale);
    var steps := Sends(n) + [DeliverStray(s)] + [DeliverAck(ack)];
    assert s in WorldAfter(steps).erased && s !in WorldAfter(steps).arrived;
  }

  /** No stale number is one that may be issued. */
  predicate Unmixed(n: nat, stale: set<u16>) {
    forall s :: s in stale ==> !(1 <= s <= n)
  }

  /** A packet erased has really arrived, in every run of at most `n` issued numbers, if and only if
      acknowledgements are sound and no stale number is one that may be issued. */
  lemma DeliverySoundIff(n: nat, stale: set<u16>)
    ensures SoundDeliveryUpTo(n, stale) <==> SoundUpTo(n, stale) && Unmixed(n, stale)
  {
    hide PossibleRun, WorldAfter, FalseClaim;
    if n > HISTORY_SIZE {
      var steps := FalseAckHappens(stale);
      assert !Sound(WorldAfter(steps)) && !SoundDelivery(WorldAfter(steps));
    } else {
      SoundIffNoFalseClaim(n, stale);
      if !Unmixed(n, stale) {
        var s :| s in stale && 1 <= s <= n;
        StrayIsUnsound(s, n, stale);
      } else if !SoundUpTo(n, stale) {
        var acc: seq<u16>, k: u16 :| 1 <= k <= n && AllReceivable(acc, n, stale) && FalseClaim(acc, k);
        FalseClaimIsUnsound(acc, k, n, stale);
      } else {
        forall steps | PossibleRun(steps, stale) && WorldAfter(steps).issued <= n
          ensures SoundDelivery(WorldAfter(steps))
        {
          SoundAndUnmixed(steps, stale, n);
        }
      }
    }
  }

  lemma SoundAndUnmixed(steps: seq<Step>, stale: set<u16>, n: nat)
    requires PossibleRun(steps, stale) && WorldAfter(steps).issued <= n < MODULUS && Sound(WorldAfter(steps))
    requires Unmixed(n, stale)
    ensures SoundDelivery(WorldAfter(steps))
  {
    hide PossibleRun, WorldAfter, AllAccepted, RecordAll, Covers, SentAfter, Wrap;
    var acc := EveryRunIsTracked(steps, stale);
    EveryRunIsInRange(steps, stale);
  }
}
