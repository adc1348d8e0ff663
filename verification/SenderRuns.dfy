/** Whole runs of the sender.  `SendReliable` is two steps, as in the source: taking a number and, under
    the lock, inserting the entry.  An update is the locked scan and then one such pair of steps per listed
    key.  Everything else can come in between. */
module SenderRuns {
  import opened SerialNumber
  import opened AckField
  import opened PendingMap

  type ThreadId = nat

  /** The thread that runs `Update`. */
  const UPDATER: ThreadId := 0

  datatype Event =
    | Take(t: ThreadId, buffer: BufferId, timestamp: real)
    | Insert(t: ThreadId)
    | Ack(latest: u16, field: bv32)
    | StartUpdate(now: real, order: seq<u16>)
    | ResendNext
    | Drop

  /** `taken` is what each thread has numbered and not yet inserted; `todo` is the rest of the resend list
      of the update in progress. */
  datatype Session = Session(sender: Sender, taken: map<ThreadId, PendingPacket>, todo: seq<u16>, now: real)

  const FRESH_SESSION: Session := Session(FRESH_SENDER, map[], [], 0.0)

  ghost predicate Enabled(x: Session, e: Event) {
    match e
    case Take(t, _, _) => t !in x.taken && (t == UPDATER ==> x.todo == [])
    case Insert(t) => t in x.taken
    case StartUpdate(now, order) => x.todo == [] && UPDATER !in x.taken && ListsDue(x.sender, now, order)
    case ResendNext => x.todo != [] && UPDATER !in x.taken
    case _ => true
  }

  /** Thread `t` has taken the next number for `buffer`. */
  function WithNumber(x: Session, t: ThreadId, buffer: BufferId, timestamp: real): Session {
    x.(sender := TakeNumber(x.sender, buffer),
       taken := x.taken[t := PendingPacket(buffer, x.sender.sendSeq, timestamp, 0)])
  }

  ghost function Next(x: Session, e: Event): Session {
    match e
    case Take(t, buffer, timestamp) => WithNumber(x, t, buffer, timestamp)
    case Insert(t) =>
      if t in x.taken then x.(sender := InsertPending(x.sender, x.taken[t]), taken := x.taken - {t}) else x
    case Ack(latest, field) => x.(sender := HandleAck(x.sender, latest, field))
    case StartUpdate(now, order) => x.(sender := Scan(x.sender, now), todo := order, now := now)
    case ResendNext =>
      if x.todo == [] then x
      else
        var y := if x.todo[0] in x.sender.pending
                 then WithNumber(x, UPDATER, x.sender.pending[x.todo[0]].buffer, x.now) else x;
        y.(todo := x.todo[1..])
    case Drop => x.(sender := x.sender.(connected := false))
  }

  ghost function After(events: seq<Event>): Session {
    if events == [] then FRESH_SESSION
    else Next(After(events[..|events| - 1]), events[|events| - 1])
  }

  ghost predicate ValidRun(events: seq<Event>) {
    events != [] ==>
      ValidRun(events[..|events| - 1]) && Enabled(After(events[..|events| - 1]), events[|events| - 1])
  }

  /** A call of `SendReliable` that nothing interrupts is the two steps in a row. */
  lemma TakeThenInsert(x: Session, t: ThreadId, buffer: BufferId, timestamp: real)
    requires t !in x.taken
    ensures Next(Next(x, Take(t, buffer, timestamp)), Insert(t))
         == x.(sender := SendReliable(x.sender, buffer, timestamp))
  {
    assert x.taken[t := PendingPacket(buffer, x.sender.sendSeq, timestamp, 0)] - {t} == x.taken;
  }

  // ---------------------------------------------------------------------------------------------
  // What a run has done, counted from its events
  // ---------------------------------------------------------------------------------------------

  ghost predicate Issues(x: Session, e: Event) {
    e.Take? || (e.ResendNext? && x.todo != [] && x.todo[0] in x.sender.pending)
  }

  /** How many numbers the run has issued. */
  ghost function Issued(events: seq<Event>): nat {
    if events == [] then 0
    else
      var before, e := events[..|events| - 1], events[|events| - 1];
      Issued(before) + if Issues(After(before), e) then 1 else 0
  }

  /** The keys the run's acknowledgements have erased. */
  ghost function Erased(events: seq<Event>): set<u16> {
    if events == [] then {}
    else
      var before, e := events[..|events| - 1], events[|events| - 1];
      Erased(before) +
      if e.Ack? then set k | k in After(before).sender.pending && Covers(e.latest, e.field, k) else {}
  }

  ghost predicate FindsDue(x: Session, e: Event, k: u16) {
    e.StartUpdate? && k in x.sender.pending && Due(x.sender.pending[k], e.now)
  }

  /** How many updates have found key `k` pending and due. */
  ghost function DueScans(events: seq<Event>, k: u16): nat {
    if events == [] then 0
    else
      var before, e := events[..|events| - 1], events[|events| - 1];
      DueScans(before, k) + if FindsDue(After(before), e, k) then 1 else 0
  }

  // ---------------------------------------------------------------------------------------------
  // The retry bound
  // ---------------------------------------------------------------------------------------------

  ghost predicate Inserts(x: Session, e: Event, k: u16) {
    e.Insert? && e.t in x.taken && x.taken[e.t].sequence == k
  }

  /** The same, counted from the last time an entry was put under `k`.  Numbers come round again after
      65536 of them, and then a new entry takes the place of an old one. */
  ghost function DueSince(events: seq<Event>, k: u16): nat {
    if events == [] then 0
    else
      var before, e := events[..|events| - 1], events[|events| - 1];
      if Inserts(After(before), e, k) then 0
      else DueSince(before, k) + if FindsDue(After(before), e, k) then 1 else 0
  }

  ghost predicate RetriesCounted(x: Session, due: nat, k: u16) {
    && (k in x.sender.pending ==> x.sender.pending[k].retryCount == due)
    && (due > MAX_RETRIES ==> !x.sender.connected)
    && (forall t :: t in x.taken ==> x.taken[t].retryCount == 0)
  }

  lemma StepCountsRetries(x: Session, e: Event, due: nat, k: u16)
    requires RetriesCounted(x, due, k)
    ensures RetriesCounted(Next(x, e),
              if Inserts(x, e, k) then 0 else due + if FindsDue(x, e, k) then 1 else 0, k)
  {
    hide SerialNumber.Wrap, Covers;
    if FindsDue(x, e, k) {
      var scanned := Scan(x.sender, e.now).pending;
      assert k in scanned && scanned[k] == Bump(x.sender.pending[k], e.now);
    }
  }

  lemma {:induction false} EveryRunCountsRetries(events: seq<Event>, k: u16)
    ensures RetriesCounted(After(events), DueSince(events, k), k)
  {
    hide Next, Inserts, FindsDue, RetriesCounted;
    if events == [] {
      assert RetriesCounted(FRESH_SESSION, 0, k) by { NothingToRetry(k); }
    } else {
      var before, e := events[..|events| - 1], events[|events| - 1];
      EveryRunCountsRetries(before, k);
      StepCountsRetries(After(before), e, DueSince(before, k), k);
    }
  }

  lemma NothingToRetry(k: u16)
    ensures RetriesCounted(FRESH_SESSION, 0, k)
  {
  }

  /** Retry bound, in every run and across any number of wraps: an entry's retry count is the number of
      updates that have found it due since it was put there, and once six have, the session is
      disconnected, whatever the other entries do. */
  lemma SixDueScansDisconnect(events: seq<Event>, k: u16)
    ensures k in After(events).sender.pending ==>
              After(events).sender.pending[k].retryCount == DueSince(events, k)
    ensures DueSince(events, k) >= 6 ==> !After(events).sender.connected
  {
    EveryRunCountsRetries(events, k);
  }

  // ---------------------------------------------------------------------------------------------
  // The ledger
  // ---------------------------------------------------------------------------------------------

  /** Some thread has taken number `k` and not yet inserted its entry. */
  ghost predicate Held(taken: map<ThreadId, PendingPacket>, k: u16) {
    exists t :: t in taken && taken[t].sequence == k
  }

  /** What is in the threads' hands: different numbers, all issued, none of them ever pending. */
  ghost predicate HandsBalanced(taken: map<ThreadId, PendingPacket>, issued: nat, erased: set<u16>, due: u16 -> nat) {
    && (forall t :: t in taken ==>
          && 1 <= taken[t].sequence <= issued && taken[t].sequence !in erased
          && due(taken[t].sequence) == 0 && taken[t].retryCount == 0)
    && (forall t, u :: t in taken && u in taken && t != u ==> taken[t].sequence != taken[u].sequence)
  }

  /** The pending keys are exactly those issued minus those acknowledged and those still in some thread's
      hands; each entry sits under its own number; its retry count is the number of updates that found it
      due; and the session is still connected exactly if nobody dropped it and no key was found due more
      than five times. */
  ghost predicate Balanced(s: Sender, taken: map<ThreadId, PendingPacket>, issued: nat, erased: set<u16>,
                           due: u16 -> nat, dropped: bool) {
    && s.sendSeq == Wrap(issued + 1)
    && (forall k: u16 :: k in s.pending <==> 1 <= k <= issued && k !in erased && !Held(taken, k))
    && (forall k: u16 :: k in s.pending ==>
          s.pending[k].sequence == k && s.pending[k].retryCount == due(k))
    && HandsBalanced(taken, issued, erased, due)
    && (forall k: u16 :: k in erased ==> 1 <= k <= issued)
    && (forall k: u16 :: due(k) > 0 ==> 1 <= k <= issued)
    && (s.connected <==> !dropped && NoneExhausted(due))
  }

  ghost predicate NoneExhausted(due: u16 -> nat) {
    forall k: u16 :: due(k) < 6
  }

  ghost function DueCounts(events: seq<Event>): u16 -> nat {
    (k: u16) => DueScans(events, k)
  }

  ghost predicate Ledger(events: seq<Event>) {
    Balanced(After(events).sender, After(events).taken, Issued(events), Erased(events),
             DueCounts(events), Drop in events)
  }

  lemma SameExhaustion(due: u16 -> nat, due': u16 -> nat)
    requires forall k: u16 :: due'(k) == due(k)
    ensures NoneExhausted(due) <==> NoneExhausted(due')
  {
    if NoneExhausted(due') {
      forall k: u16 ensures due(k) < 6 { assert due'(k) == due(k); }
    }
  }

  lemma HeldAfterTake(taken: map<ThreadId, PendingPacket>, t: ThreadId, p: PendingPacket, k: u16)
    requires t !in taken
    ensures Held(taken[t := p], k) <==> Held(taken, k) || k == p.sequence
  {
    var taken' := taken[t := p];
    if Held(taken, k) {
      var u :| u in taken && taken[u].sequence == k;
      assert u in taken' && taken'[u].sequence == k;
    }
    if k == p.sequence { assert taken'[t].sequence == k; }
  }

  lemma HeldAfterInsert(taken: map<ThreadId, PendingPacket>, t: ThreadId, k: u16)
    requires t in taken
    requires forall u :: u in taken && u != t ==> taken[u].sequence != taken[t].sequence
    ensures Held(taken - {t}, k) <==> Held(taken, k) && k != taken[t].sequence
  {
    var taken' := taken - {t};
    if Held(taken, k) && k != taken[t].sequence {
      var u :| u in taken && taken[u].sequence == k;
      assert u in taken' && taken'[u].sequence == k;
    }
    if Held(taken', k) {
      var u :| u in taken' && taken'[u].sequence == k;
      assert u in taken && u != t;
    }
  }

  lemma TakeKeepsBalance(x: Session, t: ThreadId, buffer: BufferId, now: real, issued: nat, erased: set<u16>,
                         due: u16 -> nat, due': u16 -> nat, dropped: bool)
    requires Balanced(x.sender, x.taken, issued, erased, due, dropped)
    requires issued + 1 < MODULUS && t !in x.taken
    requires forall k: u16 :: due'(k) == due(k)
    ensures var y := WithNumber(x, t, buffer, now);
            Balanced(y.sender, y.taken, issued + 1, erased, due', dropped)
  {
    hide SerialNumber.Wrap, NoneExhausted, Held;
    WrapSmall(issued + 1);
    WrapSuccessor(issued + 1);
    SameExhaustion(due, due');
    var p := PendingPacket(buffer, x.sender.sendSeq, now, 0);
    assert HandsBalanced(x.taken[t := p], issued + 1, erased, due') by {
      assert due(p.sequence) == 0;
    }
    forall k: u16
      ensures k in x.sender.pending <==> 1 <= k <= issued + 1 && k !in erased && !Held(x.taken[t := p], k)
    {
      HeldAfterTake(x.taken, t, p, k);
    }
  }

  lemma HeldByItsThread(taken: map<ThreadId, PendingPacket>, t: ThreadId)
    requires t in taken
    ensures Held(taken, taken[t].sequence)
  {
  }

  lemma InsertKeepsBalance(x: Session, t: ThreadId, issued: nat, erased: set<u16>,
                           due: u16 -> nat, due': u16 -> nat, dropped: bool)
    requires Balanced(x.sender, x.taken, issued, erased, due, dropped) && t in x.taken
    requires forall k: u16 :: due'(k) == due(k)
    ensures Balanced(InsertPending(x.sender, x.taken[t]), x.taken - {t}, issued, erased, due', dropped)
  {
    hide SerialNumber.Wrap, NoneExhausted, Held;
    SameExhaustion(due, due');
    HeldByItsThread(x.taken, t);
    var k0 := x.taken[t].sequence;
    assert HandsBalanced(x.taken - {t}, issued, erased, due');
    forall k: u16 ensures Held(x.taken - {t}, k) <==> Held(x.taken, k) && k != k0 {
      HeldAfterInsert(x.taken, t, k);
    }
  }

  lemma AckKeepsBalance(s: Sender, taken: map<ThreadId, PendingPacket>, latest: u16, field: bv32,
                        issued: nat, erased: set<u16>, due: u16 -> nat, due': u16 -> nat, dropped: bool)
    requires Balanced(s, taken, issued, erased, due, dropped)
    requires forall k: u16 :: due'(k) == due(k)
    ensures Balanced(HandleAck(s, latest, field), taken, issued,
                     erased + (set k | k in s.pending && Covers(latest, field, k)), due', dropped)
  {
    hide SerialNumber.Wrap, Covers, NoneExhausted;
    SameExhaustion(due, due');
    forall t | t in taken ensures taken[t].sequence !in s.pending { assert Held(taken, taken[t].sequence); }
  }

  /** The scan disconnects exactly if some entry has now been found due more than five times. */
  lemma ScanConnects(s: Sender, now: real, due: u16 -> nat, due': u16 -> nat, dropped: bool)
    requires forall k: u16 :: k in s.pending ==> s.pending[k].retryCount == due(k)
    requires forall k: u16 ::
      due'(k) == due(k) + if k in s.pending && Due(s.pending[k], now) then 1 else 0
    requires s.connected <==> !dropped && NoneExhausted(due)
    ensures forall k: u16 :: k in s.pending ==> Bump(s.pending[k], now).retryCount == due'(k)
    ensures Scan(s, now).connected <==> !dropped && NoneExhausted(due')
  {
    hide Due;
    var scanned := Scan(s, now).pending;
    forall k: u16 | k in s.pending ensures scanned[k].retryCount == due'(k) {}
    if Scan(s, now).connected {
      forall k: u16 ensures due'(k) < 6 {
        if k in s.pending { assert scanned[k].retryCount <= MAX_RETRIES; }
      }
    } else if NoneExhausted(due') {
      forall k: u16 ensures due(k) < 6 { assert due(k) <= due'(k); }
    }
  }

  lemma HandsAfterScan(s: Sender, taken: map<ThreadId, PendingPacket>, now: real,
                       issued: nat, erased: set<u16>, due: u16 -> nat, due': u16 -> nat)
    requires HandsBalanced(taken, issued, erased, due)
    requires forall t :: t in taken ==> taken[t].sequence !in s.pending
    requires forall k: u16 ::
      due'(k) == due(k) + if k in s.pending && Due(s.pending[k], now) then 1 else 0
    ensures HandsBalanced(taken, issued, erased, due')
  {
    hide Due;
  }

  lemma HeldAreNotPending(s: Sender, taken: map<ThreadId, PendingPacket>)
    requires forall k: u16 :: k in s.pending ==> !Held(taken, k)
    ensures forall t :: t in taken ==> taken[t].sequence !in s.pending
  {
    hide Held;
    forall t | t in taken ensures taken[t].sequence !in s.pending { HeldByItsThread(taken, t); }
  }

  lemma BumpKeepsNumber(p: PendingPacket, now: real)
    ensures Bump(p, now).sequence == p.sequence
  {
  }

  lemma ScanKeepsBalance(s: Sender, taken: map<ThreadId, PendingPacket>, now: real,
                         issued: nat, erased: set<u16>, due: u16 -> nat, due': u16 -> nat, dropped: bool)
    requires Balanced(s, taken, issued, erased, due, dropped)
    requires forall k: u16 ::
      due'(k) == due(k) + if k in s.pending && Due(s.pending[k], now) then 1 else 0
    ensures Balanced(Scan(s, now), taken, issued, erased, due', dropped)
  {
    hide SerialNumber.Wrap, NoneExhausted, Due, Held, HandsBalanced, Bump;
    ScanConnects(s, now, due, due', dropped);
    HeldAreNotPending(s, taken);
    HandsAfterScan(s, taken, now, issued, erased, due, due');
    var scanned := Scan(s, now).pending;
    forall k: u16 | k in scanned ensures scanned[k].sequence == k && scanned[k].retryCount == due'(k) {
      BumpKeepsNumber(s.pending[k], now);
    }
  }

  lemma IdleKeepsBalance(s: Sender, taken: map<ThreadId, PendingPacket>, issued: nat, erased: set<u16>,
                         due: u16 -> nat, due': u16 -> nat, dropped: bool, dropNow: bool)
    requires Balanced(s, taken, issued, erased, due, dropped)
    requires forall k: u16 :: due'(k) == due(k)
    ensures Balanced(if dropNow then s.(connected := false) else s, taken, issued, erased, due', dropped || dropNow)
  {
    hide SerialNumber.Wrap, NoneExhausted;
    SameExhaustion(due, due');
  }

  /** How one more event changes the four quantities of the ledger. */
  lemma OneMoreEvent(before: seq<Event>, e: Event)
    ensures var events, x := before + [e], After(before);
      && After(events) == Next(x, e)
      && Issued(events) == Issued(before) + (if Issues(x, e) then 1 else 0)
      && Erased(events) ==
           (if e.Ack? then Erased(before) + (set k | k in x.sender.pending && Covers(e.latest, e.field, k))
            else Erased(before))
      && (forall k: u16 :: DueCounts(events)(k) == DueCounts(before)(k) + if FindsDue(x, e, k) then 1 else 0)
      && (Drop in events <==> Drop in before || e == Drop)
  {
    hide Next, Issues, Covers, FindsDue;
    assert (before + [e])[..|before|] == before;
  }

  lemma LedgerStep(before: seq<Event>, e: Event)
    requires Ledger(before) && Enabled(After(before), e) && Issued(before + [e]) < MODULUS
    ensures Ledger(before + [e])
  {
    hide Covers, Balanced, ListsDue, After, Issued, Erased, DueCounts, WithNumber, Due, Scan, HandleAck;
    OneMoreEvent(before, e);
    var x, issued, erased, dropped := After(before), Issued(before), Erased(before), Drop in before;
    var due, due' := DueCounts(before), DueCounts(before + [e]);
    match e
    case Take(t, buffer, timestamp) =>
      TakeKeepsBalance(x, t, buffer, timestamp, issued, erased, due, due', dropped);
    case Insert(t) =>
      InsertKeepsBalance(x, t, issued, erased, due, due', dropped);
    case Ack(latest, field) =>
      AckKeepsBalance(x.sender, x.taken, latest, field, issued, erased, due, due', dropped);
    case StartUpdate(now, _) =>
      ScanKeepsBalance(x.sender, x.taken, now, issued, erased, due, due', dropped);
    case ResendNext =>
      if Issues(x, e) {
        TakeKeepsBalance(x, UPDATER, x.sender.pending[x.todo[0]].buffer, x.now, issued, erased, due, due', dropped);
      } else {
        IdleKeepsBalance(x.sender, x.taken, issued, erased, due, due', dropped, false);
      }
    case Drop =>
      IdleKeepsBalance(x.sender, x.taken, issued, erased, due, due', dropped, true);
  }

  lemma NothingToBalance()
    ensures Ledger([])
  {
    WrapSmall(1);
  }

  /** Conservation: the ledger balances after every run that issues fewer than 65536 numbers. */
  lemma {:induction false} LedgerBalances(events: seq<Event>)
    requires ValidRun(events) && Issued(events) < MODULUS
    ensures Ledger(events)
  {
    hide Ledger, Enabled;
    if events == [] {
      NothingToBalance();
    } else {
      var before, e := events[..|events| - 1], events[|events| - 1];
      LedgerBalances(before);
      assert events == before + [e];
      LedgerStep(before, e);
    }
  }

  /** In numbers: the session is connected exactly until somebody drops it or some packet has been found pending
      for a tenth of a second six times. */
  lemma ConnectedUntilSixth(events: seq<Event>)
    requires ValidRun(events) && Issued(events) < MODULUS
    ensures After(events).sender.connected <==> Drop !in events && forall k: u16 :: DueScans(events, k) < 6
  {
    hide After, Issued, Erased, DueScans, ValidRun;
    LedgerBalances(events);
    FiveOrFewer(events);
  }

  lemma FiveOrFewer(events: seq<Event>)
    ensures NoneExhausted(DueCounts(events)) <==> forall k: u16 :: DueScans(events, k) < 6
  {
    var due := DueCounts(events);
    forall k: u16 ensures due(k) == DueScans(events, k) {}
    hide DueScans;
    CountedAlike(events, due);
  }

  lemma CountedAlike(events: seq<Event>, due: u16 -> nat)
    requires forall k: u16 :: due(k) == DueScans(events, k)
    ensures NoneExhausted(due) <==> forall k: u16 :: DueScans(events, k) < 6
  {
    hide DueScans;
    if NoneExhausted(due) {
      forall k: u16 ensures DueScans(events, k) < 6 { assert due(k) < 6; }
    } else {
      var k: u16 :| due(k) >= 6;
      assert DueScans(events, k) >= 6;
    }
  }

  /** An update counts for a pending packet exactly if a tenth of a second has passed since it was sent or last
      counted. */
  lemma DueAfterATenth(x: Session, now: real, order: seq<u16>, k: u16)
    ensures FindsDue(x, StartUpdate(now, order), k) <==>
            k in x.sender.pending && now - x.sender.pending[k].timestamp >= 0.1
  {
  }

  // ---------------------------------------------------------------------------------------------
  // The second half of an update
  // ---------------------------------------------------------------------------------------------

  /** One resend that nothing interrupts. */
  ghost function ResendOne(x: Session): (y: Session)
    requires x.todo != []
    ensures |y.todo| < |x.todo|
  {
    var y := Next(x, ResendNext);
    if UPDATER in y.taken then Next(y, Insert(UPDATER)) else y
  }

  ghost function ResendRest(x: Session): Session
    decreases |x.todo|
  {
    if x.todo == [] then x else ResendRest(ResendOne(x))
  }

  lemma ResendOneIs(x: Session)
    requires x.todo != [] && UPDATER !in x.taken
    ensures ResendOne(x) == x.(sender := Resend(x.sender, x.todo[0], x.now), todo := x.todo[1..])
  {
    if x.todo[0] in x.sender.pending {
      var p := PendingPacket(x.sender.pending[x.todo[0]].buffer, x.sender.sendSeq, x.now, 0);
      assert x.taken[UPDATER := p] - {UPDATER} == x.taken;
    }
  }

  lemma {:induction false} ResendAllFront(s: Sender, order: seq<u16>, now: real)
    requires order != []
    ensures ResendAll(s, order, now) == ResendAll(Resend(s, order[0], now), order[1..], now)
  {
    var n := |order| - 1;
    hide Resend;
    if n > 0 {
      ResendAllFront(s, order[..n], now);
      assert order[..n][1..] == order[1..][..n - 1] && order[1..][n - 1] == order[n];
    }
  }

  lemma {:induction false} RestIsResendAll(x: Session)
    requires UPDATER !in x.taken
    ensures ResendRest(x) == x.(sender := ResendAll(x.sender, x.todo, x.now), todo := [])
    decreases |x.todo|
  {
    hide ResendOne, Resend;
    if x.todo != [] {
      ResendOneIs(x);
      RestIsResendAll(ResendOne(x));
      ResendAllFront(x.sender, x.todo, x.now);
    }
  }

  /** An update that nothing interrupts, scan and resends, is `PendingMap.Update`: each listed packet's own buffer
      goes out again under the next number, at the time of the update. */
  lemma UninterruptedUpdate(x: Session, now: real, order: seq<u16>)
    requires Enabled(x, StartUpdate(now, order))
    ensures ResendRest(Next(x, StartUpdate(now, order)))
         == x.(sender := PendingMap.Update(x.sender, now, order), todo := [], now := now)
  {
    hide ResendAll, Scan, ListsDue;
    RestIsResendAll(Next(x, StartUpdate(now, order)));
  }

  // ---------------------------------------------------------------------------------------------
  // What is on the wire
  // ---------------------------------------------------------------------------------------------

  /** The number last taken for `buffer`, if any. */
  ghost function LastNumber(events: seq<Event>, buffer: BufferId): set<u16> {
    if events == [] then {}
    else
      var before, e := events[..|events| - 1], events[|events| - 1];
      var x := After(before);
      if e.Take? && e.buffer == buffer then {x.sender.sendSeq}
      else if e.ResendNext? && Issues(x, e) && x.sender.pending[x.todo[0]].buffer == buffer then {x.sender.sendSeq}
      else LastNumber(before, buffer)
  }

  ghost predicate HeaderIs(s: Sender, buffer: BufferId, numbers: set<u16>) {
    numbers == if buffer in s.headers then {s.headers[buffer]} else {}
  }

  /** A buffer's header carries the number last taken for it: a resend overwrites the old one in place. */
  lemma {:induction false} HeaderCarriesLastNumber(events: seq<Event>, buffer: BufferId)
    ensures HeaderIs(After(events).sender, buffer, LastNumber(events, buffer))
  {
    hide Covers, Due, SerialNumber.Wrap;
    if events != [] {
      HeaderCarriesLastNumber(events[..|events| - 1], buffer);
    }
  }
}
