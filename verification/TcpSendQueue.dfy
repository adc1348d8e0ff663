/** The TCP send queue: producers push under the session lock and race for `_sendRegistered`; the winner
    drains the queue and starts one asynchronous write (ClientNetworkCore/Session.cpp, `Send`,
    `RegisterSend`, `ProcessSend` and the write's completion handler).

    `Shared` is the state the lock protects, with one function per locked region.  `Tcp` adds the
    callers' program counters and the outstanding writes; its steps interleave freely. */
module TcpSendQueue {

  import opened Options

  /** A `SendBuffer`; `size` is its `WriteSize()`. */
  datatype Buffer = Buffer(id: nat, size: nat)

  /** The buffers worth writing: `RegisterSend` drops the empty ones. */
  function NonEmpty(buffers: seq<Buffer>): seq<Buffer> {
    if buffers == [] then []
    else
      var n := |buffers| - 1;
      NonEmpty(buffers[..n]) + if buffers[n].size > 0 then [buffers[n]] else []
  }

  function TotalSize(buffers: seq<Buffer>): nat {
    if buffers == [] then 0 else TotalSize(buffers[..|buffers| - 1]) + buffers[|buffers| - 1].size
  }

  // ---------------------------------------------------------------------------------------------
  // The locked regions
  // ---------------------------------------------------------------------------------------------

  datatype Shared = Shared(connected: bool, registered: bool, queue: seq<Buffer>, current: seq<Buffer>)

  /** `Send`'s locked region. */
  function Push(s: Shared, b: Buffer): Shared {
    s.(queue := s.queue + [b], registered := true)
  }

  /** `RegisterSend`'s locked region on a non-empty queue. */
  function Drain(s: Shared): Shared {
    s.(queue := [], current := s.current + NonEmpty(s.queue))
  }

  /** The locked region of a failed write. */
  function Requeue(s: Shared): Shared {
    s.(queue := s.queue + s.current, current := [])
  }

  // ---------------------------------------------------------------------------------------------
  // Callers, writes and their interleavings
  // ---------------------------------------------------------------------------------------------

  /** Where a thread inside `Send` is. */
  datatype Pc =
    | Idle
    | Connected(buffer: Buffer)
    | Committed
    | Cleared
    | Drained(batch: seq<Buffer>)

  /** `writes` are the outstanding asynchronous writes.  The rest is history: every buffer pushed and
      every buffer written, in order; the batch taken from the queue and not yet written; the caller
      that claimed the flag; and how many writes failed and how many drains found the queue empty. */
  datatype Tcp = Tcp(
    shared: Shared,
    callers: map<nat, Pc>,
    writes: seq<seq<Buffer>>,
    pushed: seq<Buffer>,
    completed: seq<Buffer>,
    hand: seq<Buffer>,
    owner: Option<nat>,
    errors: nat,
    emptyReturns: nat)

  const CONNECTED: Tcp := Tcp(Shared(true, false, [], []), map[], [], [], [], [], None, 0, 0)

  function PcOf(x: Tcp, t: nat): Pc {
    if t in x.callers then x.callers[t] else Idle
  }

  /** `t` has won the race and has not yet handed its batch to a write. */
  predicate Responsible(x: Tcp, t: nat) {
    PcOf(x, t).Committed? || PcOf(x, t).Cleared? || PcOf(x, t).Drained?
  }

  datatype Step =
    | BeginSend(t: nat, buffer: Buffer)
    | PushAndClaim(t: nat)
    | EnterRegisterSend(t: nat)
    | DrainQueue(t: nat)
    | StartWrite(t: nat)
    | Complete(i: nat)
    | Fail(i: nat)
    | Disconnect

  predicate Enabled(x: Tcp, step: Step) {
    match step
    case BeginSend(t, _) => PcOf(x, t).Idle?
    case PushAndClaim(t) => PcOf(x, t).Connected?
    case EnterRegisterSend(t) => PcOf(x, t).Committed?
    case DrainQueue(t) => PcOf(x, t).Cleared?
    case StartWrite(t) => PcOf(x, t).Drained?
    case Complete(i) => i < |x.writes|
    case Fail(i) => i < |x.writes|
    case Disconnect => true
  }

  function Go(x: Tcp, t: nat, pc: Pc): Tcp {
    x.(callers := x.callers[t := pc])
  }

  function WithoutWrite(x: Tcp, i: nat): seq<seq<Buffer>>
    requires i < |x.writes|
  {
    x.writes[..i] + x.writes[i + 1..]
  }

  /** `Disconnect`: the first call empties the queue and the batch and clears the flag, any other returns. */
  function Disconnected(s: Shared): Shared {
    if s.connected then Shared(false, false, [], []) else s
  }

  /** `ProcessSend` of `n` bytes: what it makes of the session ... */
  function Completed(s: Shared, n: nat): Shared {
    if n == 0 then Disconnected(s)
    else if s.queue == [] then s.(registered := false)
    else if !s.connected then s
    else Drain(s.(current := []))
  }

  /** ... and the write it starts, if any. */
  function Restarted(s: Shared, n: nat): seq<seq<Buffer>> {
    if n > 0 && s.queue != [] && s.connected then [NonEmpty(s.queue)] else []
  }

  /** The completion handler of a successful write: one locked step, since the lock is re-entrant and
      `RegisterSend` runs inside it. */
  function Finish(x: Tcp, i: nat): Tcp
    requires i < |x.writes|
  {
    var n := TotalSize(x.writes[i]);
    var next := Restarted(x.shared, n);
    x.(shared := Completed(x.shared, n),
       writes := WithoutWrite(x, i) + next,
       completed := x.completed + x.writes[i],
       hand := if next == [] then [] else next[0])
  }

  function Perform(x: Tcp, step: Step): Tcp
    requires Enabled(x, step)
  {
    var s := x.shared;
    match step
    case BeginSend(t, b) => if s.connected then Go(x, t, Connected(b)) else x
    case PushAndClaim(t) =>
      var b := PcOf(x, t).buffer;
      var y := Go(x.(shared := Push(s, b), pushed := x.pushed + [b]), t, if s.registered then Idle else Committed);
      if s.registered then y else y.(owner := Some(t))
    case EnterRegisterSend(t) =>
      if s.connected then Go(x.(shared := s.(current := [])), t, Cleared) else Go(x, t, Idle)
    case DrainQueue(t) =>
      if s.queue == [] then Go(x.(emptyReturns := x.emptyReturns + 1, owner := None), t, Idle)
      else Go(x.(shared := Drain(s), hand := NonEmpty(s.queue)), t, Drained(NonEmpty(s.queue)))
    case StartWrite(t) => Go(x.(writes := x.writes + [PcOf(x, t).batch], owner := None), t, Idle)
    case Complete(i) => Finish(x, i)
    case Fail(i) =>
      x.(shared := Requeue(s), writes := WithoutWrite(x, i), hand := [], errors := x.errors + 1)
    case Disconnect => x.(shared := Disconnected(s))
  }

  /** A run from the connected session. */
  ghost predicate Run(x: Tcp, steps: seq<Step>, y: Tcp) {
    if steps == [] then x == y
    else
      var n := |steps| - 1;
      exists m :: Run(x, steps[..n], m) && Enabled(m, steps[n]) && y == Perform(m, steps[n])
  }

  // ---------------------------------------------------------------------------------------------
  // The invariant
  // ---------------------------------------------------------------------------------------------

  /** Nothing is owed: the flag is clear and there is nothing to write. */
  ghost predicate Resting(x: Tcp) {
    !x.shared.registered && x.writes == [] && x.owner == None && x.shared.queue == [] && x.hand == []
  }

  /** One write is outstanding and nobody else is responsible. */
  ghost predicate Writing(x: Tcp) {
    x.shared.registered && x.writes == [x.hand] && x.owner == None && x.shared.current == x.hand
  }

  /** One caller is on its way to starting a write. */
  ghost predicate Claimed(x: Tcp) {
    && x.shared.registered && x.writes == [] && x.owner.Some?
    && (PcOf(x, x.owner.value).Drained? ==> PcOf(x, x.owner.value).batch == x.hand == x.shared.current)
    && (!PcOf(x, x.owner.value).Drained? ==> x.hand == [] && x.shared.queue != [])
    && (PcOf(x, x.owner.value).Cleared? ==> x.shared.current == [])
  }

  /** A write has failed: the flag is set and nobody is responsible any more. */
  ghost predicate Wedged(x: Tcp) {
    x.shared.registered && x.writes == [] && x.owner == None && x.hand == []
  }

  ghost predicate Fifo(x: Tcp) {
    x.completed + x.hand + NonEmpty(x.shared.queue) == NonEmpty(x.pushed)
  }

  ghost predicate Conserved(x: Tcp) {
    multiset(x.completed) + multiset(x.hand) + multiset(NonEmpty(x.shared.queue))
      == multiset(NonEmpty(x.pushed))
  }

  ghost predicate Inv(x: Tcp) {
    x.shared.connected ==>
      && (forall t: nat :: Responsible(x, t) <==> x.owner == Some(t))
      && (x.errors == 0 ==> (Resting(x) || Writing(x) || Claimed(x)) && Fifo(x))
      && (x.errors > 0 ==> Wedged(x))
      && Conserved(x)
      && x.emptyReturns == 0
      && AllNonEmpty(x.hand)
  }

  ghost predicate AllNonEmpty(buffers: seq<Buffer>) {
    NonEmpty(buffers) == buffers
  }

  lemma {:induction false} NonEmptyConcat(a: seq<Buffer>, b: seq<Buffer>)
    ensures NonEmpty(a + b) == NonEmpty(a) + NonEmpty(b)
  {
    if b == [] {
      assert a + b == a;
    } else {
      var n := |b| - 1;
      assert (a + b)[..|a + b| - 1] == a + b[..n];
      NonEmptyConcat(a, b[..n]);
    }
  }

  lemma {:induction false} NonEmptyTwice(a: seq<Buffer>)
    ensures AllNonEmpty(NonEmpty(a))
  {
    if a != [] {
      var n := |a| - 1;
      NonEmptyTwice(a[..n]);
      NonEmptyConcat(NonEmpty(a[..n]), if a[n].size > 0 then [a[n]] else []);
    }
  }

  lemma {:induction false} NonEmptyHasSize(a: seq<Buffer>)
    requires AllNonEmpty(a)
    ensures TotalSize(a) == 0 <==> a == []
  {
    if a != [] {
      var n := |a| - 1;
      NonEmptyLength(a[..n]);
      assert a[n].size > 0;
    }
  }

  lemma {:induction false} NonEmptyLength(a: seq<Buffer>)
    ensures |NonEmpty(a)| <= |a|
  {
    if a != [] { NonEmptyLength(a[..|a| - 1]); }
  }

  lemma SameBuffersPushed(done: seq<Buffer>, queue: seq<Buffer>, more: seq<Buffer>)
    ensures done + (queue + more) == done + queue + more
    ensures multiset(queue + more) == multiset(queue) + multiset(more)
  {
  }

  lemma MovesKeepInv(x: Tcp, step: Step)
    requires Inv(x) && Enabled(x, step)
    requires step.BeginSend? || step.EnterRegisterSend?
    ensures Inv(Perform(x, step))
  {
    hide NonEmpty, TotalSize;
    var y := Perform(x, step);
    if y.shared.connected {
      assert Responsible(x, step.t) <==> x.owner == Some(step.t);
      forall t: nat ensures Responsible(y, t) <==> y.owner == Some(t) {
        assert Responsible(x, t) <==> x.owner == Some(t);
      }
    }
  }

  lemma PushKeepsOrder(x: Tcp, b: Buffer)
    requires Conserved(x)
    ensures Conserved(x.(shared := Push(x.shared, b), pushed := x.pushed + [b]))
    ensures Fifo(x) ==> Fifo(x.(shared := Push(x.shared, b), pushed := x.pushed + [b]))
  {
    hide NonEmpty;
    NonEmptyConcat(x.pushed, [b]);
    NonEmptyConcat(x.shared.queue, [b]);
    SameBuffersPushed(x.completed + x.hand, NonEmpty(x.shared.queue), NonEmpty([b]));
    SameBuffersPushed([], NonEmpty(x.pushed), NonEmpty([b]));
  }

  lemma PushKeepsInv(x: Tcp, t: nat)
    requires Inv(x) && Enabled(x, PushAndClaim(t))
    ensures Inv(Perform(x, PushAndClaim(t)))
  {
    hide NonEmpty, TotalSize, Conserved, Fifo;
    var y := Perform(x, PushAndClaim(t));
    if y.shared.connected {
      var z := x.(shared := Push(x.shared, PcOf(x, t).buffer), pushed := x.pushed + [PcOf(x, t).buffer]);
      PushKeepsOrder(x, PcOf(x, t).buffer);
      SameLedger(z, y);
      forall u: nat ensures Responsible(y, u) <==> y.owner == Some(u) {
        assert Responsible(x, u) <==> x.owner == Some(u);
      }
    }
  }

  lemma SameLedger(x: Tcp, y: Tcp)
    requires x.completed == y.completed && x.hand == y.hand && x.pushed == y.pushed && x.shared == y.shared
    ensures Conserved(x) == Conserved(y) && Fifo(x) == Fifo(y)
  {
  }

  lemma WriteStepKeepsInv(x: Tcp, step: Step)
    requires Inv(x) && Enabled(x, step)
    requires step.DrainQueue? || step.StartWrite?
    ensures Inv(Perform(x, step))
  {
    hide NonEmpty, TotalSize;
    var y := Perform(x, step);
    NonEmptyTwice(x.shared.queue);
    NoBuffers();
    if y.shared.connected {
      assert Responsible(x, step.t);
      forall t: nat ensures Responsible(y, t) <==> y.owner == Some(t) {
        assert Responsible(x, t) <==> x.owner == Some(t);
      }
    }
  }

  lemma NoBuffers()
    ensures NonEmpty([]) == [] && TotalSize([]) == 0
  {
  }

  lemma OneWriteOutstanding(x: Tcp, i: nat)
    requires Inv(x) && x.shared.connected && i < |x.writes|
    ensures Writing(x) && x.errors == 0 && Fifo(x) && WithoutWrite(x, i) == [] && x.writes[i] == x.hand
    ensures TotalSize(x.hand) == 0 <==> x.hand == []
  {
    hide NonEmpty, TotalSize, Conserved, Fifo;
    NonEmptyHasSize(x.hand);
  }

  lemma NobodyElse(x: Tcp, y: Tcp)
    requires forall t: nat :: Responsible(x, t) <==> x.owner == Some(t)
    requires x.owner == y.owner && x.callers == y.callers
    ensures forall t: nat :: Responsible(y, t) <==> y.owner == Some(t)
  {
    forall t: nat ensures Responsible(y, t) <==> y.owner == Some(t) {
      assert Responsible(x, t) <==> x.owner == Some(t);
    }
  }

  lemma CompleteKeepsInv(x: Tcp, i: nat)
    requires Inv(x) && i < |x.writes|
    ensures Inv(Finish(x, i))
  {
    hide NonEmpty, TotalSize;
    if x.shared.connected {
      OneWriteOutstanding(x, i);
      NonEmptyTwice(x.shared.queue);
      NoBuffers();
      NobodyElse(x, Finish(x, i));
      assert multiset(x.completed + x.hand) == multiset(x.completed) + multiset(x.hand);
    }
  }

  lemma FailKeepsInv(x: Tcp, i: nat)
    requires Inv(x) && Enabled(x, Fail(i))
    ensures Inv(Perform(x, Fail(i)))
  {
    hide NonEmpty, TotalSize;
    if x.shared.connected {
      OneWriteOutstanding(x, i);
      NoBuffers();
      NonEmptyConcat(x.shared.queue, x.hand);
      NobodyElse(x, Perform(x, Fail(i)));
    }
  }

  lemma {:induction false} InvHolds(steps: seq<Step>, x: Tcp)
    requires Run(CONNECTED, steps, x)
    ensures Inv(x)
  {
    if steps == [] {
      NoBuffers();
    } else {
      var n := |steps| - 1;
      var m :| Run(CONNECTED, steps[..n], m) && Enabled(m, steps[n]) && x == Perform(m, steps[n]);
      InvHolds(steps[..n], m);
      match steps[n]
      case BeginSend(_, _) | EnterRegisterSend(_) => MovesKeepInv(m, steps[n]);
      case PushAndClaim(t) => PushKeepsInv(m, t);
      case DrainQueue(_) | StartWrite(_) => WriteStepKeepsInv(m, steps[n]);
      case Complete(i) => CompleteKeepsInv(m, i);
      case Fail(i) => FailKeepsInv(m, i);
      case Disconnect =>
    }
  }

  // ---------------------------------------------------------------------------------------------
  // Main results
  // ---------------------------------------------------------------------------------------------

  /** In every interleaving without a write error: at most one write is outstanding, a waiting buffer
      always has someone responsible for it, that someone is unique, and the early return on an empty
      queue is never taken. */
  lemma NoLostWakeup(steps: seq<Step>, x: Tcp)
    requires Run(CONNECTED, steps, x) && x.shared.connected && x.errors == 0
    ensures |x.writes| <= 1
    ensures x.shared.queue != [] ==>
              x.shared.registered && (x.writes != [] || exists t: nat :: Responsible(x, t))
    ensures x.writes != [] ==> forall t: nat :: !Responsible(x, t)
    ensures forall t: nat, u: nat :: Responsible(x, t) && Responsible(x, u) ==> t == u
    ensures x.emptyReturns == 0
  {
    InvHolds(steps, x);
    if x.owner.Some? { assert Responsible(x, x.owner.value); }
  }

  /** In every interleaving without a write error, what has been written, then the batch being written,
      then what is queued is exactly what was pushed under the lock, in that order. */
  lemma WrittenInPushOrder(steps: seq<Step>, x: Tcp)
    requires Run(CONNECTED, steps, x) && x.shared.connected && x.errors == 0
    ensures x.completed + x.hand + NonEmpty(x.shared.queue) == NonEmpty(x.pushed)
    ensures x.writes != [] ==> x.writes == [x.hand]
  {
    InvHolds(steps, x);
  }

  lemma {:induction false} NonEmptyOfPrefix(a: seq<Buffer>, b: seq<Buffer>)
    requires a <= b
    ensures NonEmpty(a) <= NonEmpty(b)
  {
    assert b == a + b[|a|..];
    NonEmptyConcat(a, b[|a|..]);
  }

  lemma PushedGrows(x: Tcp, step: Step)
    requires Enabled(x, step)
    ensures x.pushed <= Perform(x, step).pushed
  {
    hide NonEmpty, TotalSize;
  }

  lemma FailWritesNothing(x: Tcp, step: Step)
    requires Enabled(x, step) && Perform(x, step).errors > x.errors
    ensures Perform(x, step).completed == x.completed && Perform(x, step).pushed == x.pushed
  {
    hide NonEmpty, TotalSize;
  }

  /** In every interleaving, write errors included: what has been written is, at any time, exactly the first
      non-empty buffers pushed, in that order.  What a failed write puts back out of order is never written. */
  lemma {:induction false} WrittenIsFirstPushed(steps: seq<Step>, x: Tcp)
    requires Run(CONNECTED, steps, x) && x.shared.connected
    ensures x.completed <= NonEmpty(x.pushed)
  {
    hide Perform, Enabled, Inv, NonEmpty;
    InvHolds(steps, x);
    if x.errors == 0 {
      WrittenInPushOrder(steps, x);
    } else {
      ErrorsAreLate(steps, x);
      var n := |steps| - 1;
      var m :| Run(CONNECTED, steps[..n], m) && Enabled(m, steps[n]) && x == Perform(m, steps[n]);
      ConnectedBefore(m, steps[n]);
      WrittenIsFirstPushed(steps[..n], m);
      InvHolds(steps[..n], m);
      PushedGrows(m, steps[n]);
      NonEmptyOfPrefix(m.pushed, x.pushed);
      if m.errors > 0 {
        StuckStep(m, steps[n]);
      } else {
        FailWritesNothing(m, steps[n]);
      }
    }
  }

  lemma ErrorsAreLate(steps: seq<Step>, x: Tcp)
    requires Run(CONNECTED, steps, x) && x.errors > 0
    ensures steps != []
  {
  }

  /** With write errors too, no buffer is lost or duplicated. */
  lemma NothingLostOrDuplicated(steps: seq<Step>, x: Tcp)
    requires Run(CONNECTED, steps, x) && x.shared.connected
    ensures multiset(x.completed) + multiset(x.hand) + multiset(NonEmpty(x.shared.queue))
         == multiset(NonEmpty(x.pushed))
  {
    InvHolds(steps, x);
  }

  /** The flag is set with nobody responsible for it exactly when a write has failed. */
  lemma StuckIffWriteFailed(steps: seq<Step>, x: Tcp)
    requires Run(CONNECTED, steps, x) && x.shared.connected
    ensures x.shared.registered && x.writes == [] && (forall t: nat :: !Responsible(x, t)) <==> x.errors > 0
  {
    InvHolds(steps, x);
    if x.owner.Some? { assert Responsible(x, x.owner.value); }
  }

  lemma NobodyOnTheWay(x: Tcp, t: nat)
    requires Inv(x) && x.errors > 0 && x.shared.connected
    ensures PcOf(x, t).Idle? || PcOf(x, t).Connected?
  {
    assert Responsible(x, t) <==> x.owner == Some(t);
  }

  lemma StuckStep(x: Tcp, step: Step)
    requires Inv(x) && x.errors > 0 && x.shared.connected
    requires Enabled(x, step) && Perform(x, step).shared.connected
    ensures var y := Perform(x, step);
      && Inv(y) && y.errors == x.errors && y.writes == [] && y.completed == x.completed
      && x.shared.queue <= y.shared.queue
  {
    hide NonEmpty, TotalSize, Conserved, Fifo;
    match step
    case BeginSend(_, _) => MovesKeepInv(x, step);
    case PushAndClaim(t) => PushKeepsInv(x, t);
    case EnterRegisterSend(t) => NobodyOnTheWay(x, t);
    case DrainQueue(t) => NobodyOnTheWay(x, t);
    case StartWrite(t) => NobodyOnTheWay(x, t);
    case Complete(_) =>
    case Fail(_) =>
    case Disconnect =>
  }

  lemma ConnectedBefore(x: Tcp, step: Step)
    requires Enabled(x, step) && Perform(x, step).shared.connected
    ensures x.shared.connected
  {
  }

  /** After a failed write nothing is ever written again while the session stays connected, whatever
      the callers do: every later buffer stays in the queue. */
  lemma {:induction false} StuckForever(x: Tcp, steps: seq<Step>, y: Tcp)
    requires Inv(x) && x.errors > 0 && Run(x, steps, y) && y.shared.connected
    ensures Inv(y) && y.errors == x.errors && x.shared.connected
    ensures y.completed == x.completed && y.writes == [] && x.shared.queue <= y.shared.queue
  {
    hide Perform, Enabled, Inv;
    if steps == [] {
      assert y.writes == [] by { StuckHasNoWrites(y); }
    } else {
      var n := |steps| - 1;
      var m :| Run(x, steps[..n], m) && Enabled(m, steps[n]) && y == Perform(m, steps[n]);
      ConnectedBefore(m, steps[n]);
      StuckForever(x, steps[..n], m);
      StuckStep(m, steps[n]);
    }
  }

  lemma StuckHasNoWrites(x: Tcp)
    requires Inv(x) && x.errors > 0 && x.shared.connected
    ensures x.writes == []
  {
  }

  /** A completed write disconnects the session ("Send 0 byte") exactly if the whole batch was empty
      buffers. */
  lemma EmptyBatchDisconnects(steps: seq<Step>, x: Tcp, i: nat)
    requires Run(CONNECTED, steps, x) && x.shared.connected && Enabled(x, Complete(i))
    ensures !Perform(x, Complete(i)).shared.connected <==> x.hand == []
  {
    InvHolds(steps, x);
    NonEmptyHasSize(x.hand);
  }

  /** However a connected session is disconnected, by a call or by an empty write, it ends with nothing queued,
      nothing in the batch and the flag clear; a disconnect of a disconnected session changes nothing. */
  lemma DisconnectClears(steps: seq<Step>, x: Tcp, step: Step)
    requires Run(CONNECTED, steps, x) && Enabled(x, step)
    ensures var s, s' := x.shared, Perform(x, step).shared;
            && (s.connected && !s'.connected ==> !s'.registered && s'.queue == [] && s'.current == [])
            && (step == Disconnect ==> !s'.connected)
            && (!s.connected ==> !s'.connected && (step == Disconnect ==> s' == s))
  {
    hide NonEmpty, TotalSize;
  }

  /** A disconnected session stays disconnected and takes nothing new: `Send` returns at once, a caller on its way
      turns back with the flag as it was, and a completion starts no write, clearing the flag only if nothing is
      queued. */
  lemma DisconnectedTakesNothing(x: Tcp, step: Step)
    requires !x.shared.connected && Enabled(x, step)
    ensures var y := Perform(x, step);
            && !y.shared.connected
            && (step.BeginSend? ==> y == x)
            && (step.EnterRegisterSend? ==> y == x.(callers := x.callers[step.t := Idle]))
            && (step.Complete? ==>
                  && |y.writes| == |x.writes| - 1 && y.shared.queue == x.shared.queue
                  && y.shared.current == x.shared.current
                  && (TotalSize(x.writes[step.i]) > 0 ==>
                        y.shared.registered == (x.shared.registered && x.shared.queue != [])))
  {
    hide NonEmpty, TotalSize;
  }

  // ---------------------------------------------------------------------------------------------
  // From the callers' side
  // ---------------------------------------------------------------------------------------------

  /** The buffer thread `t` last called `Send` with. */
  function LastBegun(steps: seq<Step>, t: nat): Option<Buffer> {
    if steps == [] then None
    else
      var before, step := steps[..|steps| - 1], steps[|steps| - 1];
      if step.BeginSend? && step.t == t then Some(step.buffer) else LastBegun(before, t)
  }

  /** The buffers handed to `Send`, in the order in which their callers got the lock: read off the steps, without
      looking at the session. */
  function Handed(steps: seq<Step>): seq<Buffer> {
    if steps == [] then []
    else
      var before, step := steps[..|steps| - 1], steps[|steps| - 1];
      if step.PushAndClaim? && LastBegun(before, step.t).Some? then Handed(before) + [LastBegun(before, step.t).value]
      else Handed(before)
  }

  ghost predicate HoldsLastBegun(steps: seq<Step>, x: Tcp) {
    forall t: nat :: PcOf(x, t).Connected? ==> LastBegun(steps, t) == Some(PcOf(x, t).buffer)
  }

  lemma StepHandsOver(before: seq<Step>, x: Tcp, step: Step)
    requires HoldsLastBegun(before, x) && x.pushed == Handed(before) && Enabled(x, step)
    ensures HoldsLastBegun(before + [step], Perform(x, step))
    ensures Perform(x, step).pushed == Handed(before + [step])
  {
    hide NonEmpty, TotalSize, Drain, Completed, Restarted, Requeue;
    assert (before + [step])[..|before|] == before;
    var y := Perform(x, step);
    forall t: nat | PcOf(y, t).Connected? ensures LastBegun(before + [step], t) == Some(PcOf(y, t).buffer) {
      if !(step.BeginSend? && step.t == t) {
        assert PcOf(x, t).Connected?;
      }
    }
  }

  /** Nothing but what callers hand over is pushed, everything they hand over is, and in the order in which they
      get the lock. */
  lemma {:induction false} PushedIsHanded(steps: seq<Step>, x: Tcp)
    requires Run(CONNECTED, steps, x)
    ensures x.pushed == Handed(steps) && HoldsLastBegun(steps, x)
  {
    hide Perform, Enabled, HoldsLastBegun;
    if steps == [] {
      NobodyHolds();
    } else {
      var n := |steps| - 1;
      var m :| Run(CONNECTED, steps[..n], m) && Enabled(m, steps[n]) && x == Perform(m, steps[n]);
      PushedIsHanded(steps[..n], m);
      assert steps == steps[..n] + [steps[n]];
      StepHandsOver(steps[..n], m, steps[n]);
    }
  }

  lemma NobodyHolds()
    ensures HoldsLastBegun([], CONNECTED)
  {
  }

  /** Without a write error, what callers handed to `Send` is what has been written, then what is being written,
      then what is queued. */
  lemma WrittenAsHanded(steps: seq<Step>, x: Tcp)
    requires Run(CONNECTED, steps, x) && x.shared.connected && x.errors == 0
    ensures x.completed + x.hand + NonEmpty(x.shared.queue) == NonEmpty(Handed(steps))
  {
    WrittenInPushOrder(steps, x);
    PushedIsHanded(steps, x);
  }

  /** With write errors, the first buffers handed over have been written, and each is somewhere exactly once. */
  lemma NothingHandedIsLost(steps: seq<Step>, x: Tcp)
    requires Run(CONNECTED, steps, x) && x.shared.connected
    ensures x.completed <= NonEmpty(Handed(steps))
    ensures multiset(x.completed) + multiset(x.hand) + multiset(NonEmpty(x.shared.queue))
         == multiset(NonEmpty(Handed(steps)))
  {
    WrittenIsFirstPushed(steps, x);
    NothingLostOrDuplicated(steps, x);
    PushedIsHanded(steps, x);
  }

  // ---------------------------------------------------------------------------------------------
  // Progress
  // ---------------------------------------------------------------------------------------------

  /** From `x`, these steps can be taken one after the other and lead to `y`. */
  ghost predicate Leads(x: Tcp, steps: seq<Step>, y: Tcp)
    decreases |steps|
  {
    if steps == [] then x == y else Enabled(x, steps[0]) && Leads(Perform(x, steps[0]), steps[1..], y)
  }

  /** The steps of one `Send` that wins the flag, up to the completion of its write. */
  function SendAlone(t: nat, b: Buffer): seq<Step> {
    [BeginSend(t, b), PushAndClaim(t), EnterRegisterSend(t), DrainQueue(t), StartWrite(t), Complete(0)]
  }

  lemma OneBuffer(b: Buffer)
    requires b.size > 0
    ensures NonEmpty([b]) == [b] && TotalSize([b]) > 0
  {
    assert [b][..0] == [];
    NoBuffers();
  }

  /** A session at rest writes what it is given: all six steps of a call can be taken, and they end with the
      buffer written and the session at rest again. */
  lemma SendIsWritten(x: Tcp, t: nat, b: Buffer) returns (y: Tcp)
    requires x.shared.connected && Resting(x) && PcOf(x, t).Idle? && b.size > 0
    ensures Leads(x, SendAlone(t, b), y)
    ensures y.shared.connected && Resting(y) && PcOf(y, t).Idle?
    ensures y.completed == x.completed + [b] && y.pushed == x.pushed + [b] && y.errors == x.errors
  {
    hide NonEmpty, TotalSize;
    OneBuffer(b);
    NoBuffers();
    var x1 := Perform(x, BeginSend(t, b));
    var x2 := Perform(x1, PushAndClaim(t));
    var x3 := Perform(x2, EnterRegisterSend(t));
    assert x3.shared.queue == [b];
    var x4 := Perform(x3, DrainQueue(t));
    var x5 := Perform(x4, StartWrite(t));
    assert x5.writes == [[b]];
    y := Perform(x5, Complete(0));
    SixSteps(x, t, b, x1, x2, x3, x4, x5, y);
  }

  lemma SixSteps(x: Tcp, t: nat, b: Buffer, x1: Tcp, x2: Tcp, x3: Tcp, x4: Tcp, x5: Tcp, y: Tcp)
    requires Enabled(x, BeginSend(t, b)) && x1 == Perform(x, BeginSend(t, b))
    requires Enabled(x1, PushAndClaim(t)) && x2 == Perform(x1, PushAndClaim(t))
    requires Enabled(x2, EnterRegisterSend(t)) && x3 == Perform(x2, EnterRegisterSend(t))
    requires Enabled(x3, DrainQueue(t)) && x4 == Perform(x3, DrainQueue(t))
    requires Enabled(x4, StartWrite(t)) && x5 == Perform(x4, StartWrite(t))
    requires Enabled(x5, Complete(0)) && y == Perform(x5, Complete(0))
    ensures Leads(x, SendAlone(t, b), y)
  {
    hide Perform, Enabled;
    var steps := SendAlone(t, b);
    LastLeads(x5, steps[5], y);
    assert steps[5..] == [steps[5]] && steps[4..][1..] == steps[5..] && steps[3..][1..] == steps[4..];
    assert steps[2..][1..] == steps[3..] && steps[1..][1..] == steps[2..] && steps[0..] == steps;
    assert Leads(x4, steps[4..], y);
    assert Leads(x3, steps[3..], y);
    assert Leads(x2, steps[2..], y);
    assert Leads(x1, steps[1..], y);
  }

  lemma LastLeads(x: Tcp, step: Step, y: Tcp)
    requires Enabled(x, step) && y == Perform(x, step)
    ensures Leads(x, [step], y)
  {
    hide Perform, Enabled;
    assert [step][1..] == [];
  }

  /** A buffer that is queued behind a write is written with the next one, which the completion starts. */
  lemma QueuedIsWrittenNext(steps: seq<Step>, x: Tcp)
    requires Run(CONNECTED, steps, x) && x.shared.connected && x.writes != [] && x.hand != []
    ensures var y := Perform(x, Complete(0));
            && y.shared.connected && y.completed == x.completed + x.hand
            && (x.shared.queue != [] ==> y.writes == [NonEmpty(x.shared.queue)] && y.shared.queue == [])
            && (x.shared.queue == [] ==> Resting(y))
  {
    hide NonEmpty, TotalSize;
    InvHolds(steps, x);
    OneWriteOutstanding(x, 0);
  }

  /** A write that fails puts its buffers behind those pushed since, in their own order. */
  lemma FailPutsBehind(steps: seq<Step>, x: Tcp, i: nat)
    requires Run(CONNECTED, steps, x) && x.shared.connected && Enabled(x, Fail(i))
    ensures Perform(x, Fail(i)).shared.queue == x.shared.queue + x.hand
    ensures Perform(x, Fail(i)).completed == x.completed && Perform(x, Fail(i)).writes == []
  {
    hide NonEmpty, TotalSize;
    InvHolds(steps, x);
    OneWriteOutstanding(x, i);
  }
}
