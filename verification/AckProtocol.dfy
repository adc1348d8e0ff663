/** Two sessions and the network between them.  Datagrams may be lost, duplicated and reordered: any
    datagram ever sent may be delivered at any later time, any number of times, or never
    (ClientNetworkCore/Session.cpp; DummyClient/ServerPacketHandler.h, `HandlePacket`).

    A session also sends datagrams without numbering them, its own acknowledgements first of all.  Their
    sequence field holds whatever the recycled chunk held there, and the peer reads it as a number like any
    other.  `stale` is the set of numbers such datagrams carry in a run. */
module AckProtocol {
  import opened SerialNumber
  import opened ReceiveWindow
  import opened AckField
  import opened PendingMap
  import opened SenderRuns

  datatype Acknowledgement = Acknowledgement(latest: u16, field: bv32)

  /** The sender, the receiver's window, and what has happened: how many numbers were issued, which were
      transmitted, which reliable datagrams arrived, which numbers were accepted, which acknowledgements
      were sent, and which pending keys they erased. */
  datatype World = World(
    session: Session,
    window: Window,
    issued: nat,
    sent: set<u16>,
    arrived: set<u16>,
    accepted: set<u16>,
    acks: set<Acknowledgement>,
    erased: set<u16>)

  const START: World := World(FRESH_SESSION, FRESH, 0, {}, {}, {}, {}, {})

  datatype Step =
    | Local(event: Event)
    | DeliverData(sequence: u16)
    | DeliverStray(sequence: u16)
    | DeliverAck(ack: Acknowledgement)

  ghost predicate Possible(w: World, step: Step, stale: set<u16>) {
    match step
    case Local(e) => !e.Ack? && Enabled(w.session, e)
    case DeliverData(s) => s in w.sent
    case DeliverStray(s) => s in stale
    case DeliverAck(ack) => ack in w.acks
  }

  /** The transport half of `HandlePacket`: number 0 means "unnumbered" and is never recorded; an
      accepted packet is acknowledged at once; a rejected one silently passes to its handler. */
  ghost function Receive(w: World, s: u16): World {
    if s > 0 && Accepts(w.window, s) then
      var window := Record(w.window, s);
      w.(window := window,
         accepted := w.accepted + {s},
         acks := w.acks + {Acknowledgement(s, Encode(window.history, s))})
    else
      w
  }

  /** What the event makes the session transmit. */
  ghost function Transmits(x: Session, e: Event): set<u16> {
    if e.Insert? && e.t in x.taken then {x.taken[e.t].sequence} else {}
  }

  ghost function Perform(w: World, step: Step): World {
    match step
    case Local(e) =>
      w.(session := Next(w.session, e),
         issued := w.issued + (if Issues(w.session, e) then 1 else 0),
         sent := w.sent + Transmits(w.session, e))
    case DeliverData(s) => Receive(w.(arrived := w.arrived + {s}), s)
    case DeliverStray(s) => Receive(w, s)
    case DeliverAck(ack) =>
      w.(session := Next(w.session, Ack(ack.latest, ack.field)),
         erased := w.erased +
           set k | k in w.session.sender.pending && Covers(ack.latest, ack.field, k))
  }

  ghost function WorldAfter(steps: seq<Step>): World {
    if steps == [] then START
    else Perform(WorldAfter(steps[..|steps| - 1]), steps[|steps| - 1])
  }

  ghost predicate PossibleRun(steps: seq<Step>, stale: set<u16>) {
    steps != [] ==>
      && PossibleRun(steps[..|steps| - 1], stale)
      && Possible(WorldAfter(steps[..|steps| - 1]), steps[|steps| - 1], stale)
  }

  // ---------------------------------------------------------------------------------------------
  // What holds in every run
  // ---------------------------------------------------------------------------------------------

  /** Some accepted number shares the history bit of `k`. */
  ghost predicate SlotTaken(accepted: set<u16>, k: u16) {
    exists a :: a in accepted && Slot(a) == Slot(k)
  }

  /** The history is the set of slots of accepted numbers; every acknowledgement ever sent, and hence
      every erased key, is backed by an accepted number with the same slot.  Number 0 is not accepted. */
  ghost predicate Backed(w: World) {
    && 0 !in w.accepted
    && (forall b :: b in w.window.history ==> exists a :: a in w.accepted && Slot(a) == b)
    && (forall ack, k :: ack in w.acks && Covers(ack.latest, ack.field, k) ==> SlotTaken(w.accepted, k))
    && (forall k :: k in w.erased ==> SlotTaken(w.accepted, k))
  }

  lemma ReceiveKeepsBacked(w: World, s: u16)
    requires Backed(w)
    ensures Backed(Receive(w, s))
  {
    hide Slot, SerialNumber.Wrap, IsSeqGreater, Encode, Covers, Before;
    if s > 0 && Accepts(w.window, s) {
      var w' := Receive(w, s);
      assert s in w'.accepted;
      forall k: u16 | SlotTaken(w.accepted, k) ensures SlotTaken(w'.accepted, k) {
        var a :| a in w.accepted && Slot(a) == Slot(k);
        assert a in w'.accepted;
      }
      forall b | b in w'.window.history ensures exists a :: a in w'.accepted && Slot(a) == b {
        if b in w.window.history {
          var a :| a in w.accepted && Slot(a) == b;
          assert a in w'.accepted;
        }
      }
      forall k | Covers(s, Encode(w'.window.history, s), k) ensures SlotTaken(w'.accepted, k) {
        EncodeDecodeExact(w'.window.history, s, k);
      }
    }
  }

  /** In every run whatsoever, whatever stale numbers come in, an erased key shares its history bit with a
      number the peer accepted. */
  lemma {:induction false} EveryRunIsBacked(steps: seq<Step>, stale: set<u16>)
    requires PossibleRun(steps, stale)
    ensures Backed(WorldAfter(steps))
  {
    hide Covers, SlotTaken, Receive, Next, Issues, Enabled, Transmits;
    if steps == [] {
    } else {
      var before, step := steps[..|steps| - 1], steps[|steps| - 1];
      EveryRunIsBacked(before, stale);
      var w := WorldAfter(before);
      match step
      case DeliverData(s) => ReceiveKeepsBacked(w.(arrived := w.arrived + {s}), s);
      case DeliverStray(s) => ReceiveKeepsBacked(w, s);
      case _ =>
    }
  }

  /** `SendReliable` issues number 0 after 65535 others, and the peer never accepts it: when an
      acknowledgement does erase it, that is a false one. */
  lemma NumberZeroIsNeverAccepted(steps: seq<Step>, stale: set<u16>)
    requires PossibleRun(steps, stale)
    ensures 0 !in WorldAfter(steps).accepted
  {
    EveryRunIsBacked(steps, stale);
  }

  // ---------------------------------------------------------------------------------------------
  // The sender's side of a run
  // ---------------------------------------------------------------------------------------------

  /** What the sender takes part in: its own events, and each acknowledgement that reaches it. */
  function EventsOf(steps: seq<Step>): seq<Event> {
    if steps == [] then []
    else
      var before, step := EventsOf(steps[..|steps| - 1]), steps[|steps| - 1];
      match step
      case Local(e) => before + [e]
      case DeliverAck(ack) => before + [Ack(ack.latest, ack.field)]
      case _ => before
  }

  lemma OneMoreEventFor(before: seq<Event>, e: Event, x: Session)
    requires ValidRun(before) && After(before) == x && Enabled(x, e)
    ensures ValidRun(before + [e]) && After(before + [e]) == Next(x, e)
    ensures Issued(before + [e]) == Issued(before) + if Issues(x, e) then 1 else 0
    ensures Erased(before + [e]) == Erased(before) +
            if e.Ack? then set k | k in x.sender.pending && Covers(e.latest, e.field, k) else {}
  {
    hide Next, Enabled, Issues, Covers;
    assert (before + [e])[..|before|] == before;
  }

  /** Seen from the sender, a run of the two sessions and the network is one of its own runs: the numbers issued,
      the keys erased and everything pending are those of that run, so that its ledger balances here too. */
  lemma {:induction false} WorldIsASenderRun(steps: seq<Step>, stale: set<u16>)
    requires PossibleRun(steps, stale)
    ensures var w, events := WorldAfter(steps), EventsOf(steps);
            && ValidRun(events) && w.session == After(events)
            && w.issued == Issued(events) && w.erased == Erased(events)
  {
    hide After, Issued, Erased, ValidRun, Next, Enabled, Issues, Covers, Accepts, Record, Encode, Transmits;
    if steps == [] {
      NoEvents();
    } else {
      var before, step := steps[..|steps| - 1], steps[|steps| - 1];
      WorldIsASenderRun(before, stale);
      var x := WorldAfter(before).session;
      match step
      case Local(e) =>
        OneMoreEventFor(EventsOf(before), e, x);
      case DeliverAck(ack) =>
        AckOnlyErases(x, ack.latest, ack.field);
        OneMoreEventFor(EventsOf(before), Ack(ack.latest, ack.field), x);
      case _ =>
    }
  }

  lemma NoEvents()
    ensures ValidRun([]) && After([]) == FRESH_SESSION && Issued([]) == 0 && Erased([]) == {}
  {
  }

  lemma AckOnlyErases(x: Session, latest: u16, field: bv32)
    ensures Enabled(x, Ack(latest, field)) && !Issues(x, Ack(latest, field))
  {
  }

  /** So conservation and the retry bound hold between two sessions and a network. */
  lemma LedgerBalancesHere(steps: seq<Step>, stale: set<u16>)
    requires PossibleRun(steps, stale) && WorldAfter(steps).issued < MODULUS
    ensures Ledger(EventsOf(steps)) && WorldAfter(steps).session == After(EventsOf(steps))
  {
    hide Ledger, ValidRun, After, WorldAfter, PossibleRun;
    WorldIsASenderRun(steps, stale);
    LedgerBalances(EventsOf(steps));
  }
}
