/** Whole runs of the predicting client, with reports handled at any point, and which inputs are pending
    (DummyClient/Player.cpp). */
module PredictionRuns {

  import opened Options
  import opened Vectors
  import opened TransformCompressor
  import opened Prediction

  /** `Update` is two steps, since it takes no lock: an input is pushed by one and applied by the next, and a
      report can be handled in between. */
  datatype Event =
    | Push(captured: Input)
    | Apply
    | Server(report: Report, ack: u32)

  /** `hand` is the input pushed and not yet applied. */
  datatype Client = Client(state: State, hand: Option<Input>)

  function Next(m: Maths, x: Client, e: Event): Client {
    match e
    case Push(captured) =>
      if captured.timestamp == 0.0 then x
      else Client(Prediction.Push(x.state, captured), Some(Numbered(x.state, captured)))
    case Apply =>
      if x.hand.None? then x else Client(ApplyInput(m, x.state, x.hand.value), None)
    case Server(report, ack) => x.(state := Reconcile(m, x.state, report, ack))
  }

  /** A player as the spawn packet leaves it: position, speed and angles are set, nothing is rendered yet. */
  function Spawned(spawn: Report): State {
    Receive(Start(), spawn)
  }

  function Run(m: Maths, spawn: Report, events: seq<Event>): Client {
    if events == [] then Client(Spawned(spawn), None)
    else Next(m, Run(m, spawn, events[..|events| - 1]), events[|events| - 1])
  }

  function StateAfter(m: Maths, spawn: Report, events: seq<Event>): State {
    Run(m, spawn, events).state
  }

  predicate Pushes(e: Event) {
    e.Push? && e.captured.timestamp != 0.0
  }

  /** The one thread that runs `Update` applies each input before it pushes the next. */
  ghost predicate Orderly(m: Maths, spawn: Report, events: seq<Event>) {
    forall k :: 0 <= k < |events| && Pushes(events[k]) ==> Run(m, spawn, events[..k]).hand.None?
  }

  /** An `Update` that nothing interrupts is the two steps in a row. */
  lemma PushThenApply(m: Maths, s: State, captured: Input)
    ensures Next(m, Next(m, Client(s, None), Push(captured)), Apply) == Client(Update(m, s, captured), None)
  {
    hide ApplyInput;
  }

  /** Everything the player has done, numbered from zero. */
  function Issued(events: seq<Event>): seq<Input> {
    if events == [] then []
    else
      var before, e := Issued(events[..|events| - 1]), events[|events| - 1];
      if Pushes(e) then before + [e.captured.(sequence := |before| % WRAP)] else before
  }

  /** Some report acknowledged input `i`, or a later one, after `i` was issued. */
  ghost predicate Acked(events: seq<Event>, i: nat) {
    exists k :: 0 <= k < |events| && AckedBy(events, k, i)
  }

  predicate AckedBy(events: seq<Event>, k: nat, i: nat)
    requires k < |events|
  {
    events[k].Server? && i <= events[k].ack && i < |Issued(events[..k])|
  }

  function Min(a: int, b: int): int { if a < b then a else b }

  function Max(a: int, b: int): int { if a < b then b else a }

  /** How many of the oldest inputs have been forgotten. */
  function Forgotten(events: seq<Event>): nat {
    if events == [] then 0
    else
      var before, e := events[..|events| - 1], events[|events| - 1];
      if e.Server? then Max(Forgotten(before), Min(e.ack + 1, |Issued(before)|)) else Forgotten(before)
  }

  // ---------------------------------------------------------------------------------------------
  // The pending inputs
  // ---------------------------------------------------------------------------------------------

  ghost predicate NumberedFrom(inputs: seq<Input>, first: nat) {
    forall i :: 0 <= i < |inputs| ==> inputs[i].sequence == first + i
  }

  lemma {:induction false} UnackedOfRange(inputs: seq<Input>, first: nat, ack: u32)
    requires NumberedFrom(inputs, first)
    ensures var cut := Max(0, Min(ack + 1 - first, |inputs|));
            Unacked(inputs, ack) == inputs[cut..]
    decreases |inputs|
  {
    if inputs != [] {
      assert inputs[0].sequence == first;
      assert NumberedFrom(inputs[1..], first + 1);
      UnackedOfRange(inputs[1..], first + 1, ack);
      if first > ack {
        assert inputs == [inputs[0]] + inputs[1..];
      }
    }
  }

  ghost predicate Consistent(s: State, issued: seq<Input>, low: nat) {
    && low <= |issued|
    && s.pendingInputs == issued[low..]
    && s.lastSequenceNumber == |issued| % WRAP
    && NumberedFrom(issued, 0)
    && s.renderVelocity.y == 0.0
  }

  lemma NextNumber(n: nat)
    requires n < WRAP
    ensures n % WRAP == n && (n % WRAP + 1) % WRAP == (n + 1) % WRAP
  {
  }

  lemma PushKeepsConsistent(s: State, issued: seq<Input>, low: nat, captured: Input)
    requires Consistent(s, issued, low) && |issued| < WRAP
    ensures Consistent(Prediction.Push(s, captured), issued + [captured.(sequence := |issued| % WRAP)], low)
  {
    NextNumber(|issued|);
    var more := issued + [captured.(sequence := |issued| % WRAP)];
    assert more[low..] == issued[low..] + [more[|issued|]];
  }

  lemma ApplyKeepsConsistent(m: Maths, s: State, issued: seq<Input>, low: nat, input: Input)
    requires Consistent(s, issued, low)
    ensures Consistent(ApplyInput(m, s, input), issued, low)
  {
    hide Velocity, NumberedFrom;
    StepsKeepDrive(m, s, input);
  }

  lemma ReconcileKeepsConsistent(m: Maths, s: State, issued: seq<Input>, low: nat, r: Report, ack: u32)
    requires Consistent(s, issued, low)
    ensures Consistent(Reconcile(m, s, r, ack), issued, Max(low, Min(ack + 1, |issued|)))
  {
    hide Reconcile, Receive, CorrectedPosition, Travel, Unacked, Max, Min, NumberedFrom;
    ReconcileMoves(m, s, r, ack);
    PendingAfter(issued, low, ack);
  }

  lemma PendingAfter(issued: seq<Input>, low: nat, ack: u32)
    requires NumberedFrom(issued, 0) && low <= |issued|
    ensures var low' := Max(low, Min(ack + 1, |issued|));
            low' <= |issued| && Unacked(issued[low..], ack) == issued[low'..]
  {
    hide Unacked;
    assert NumberedFrom(issued[low..], low);
    UnackedOfRange(issued[low..], low, ack);
    var cut := Max(0, Min(ack + 1 - low, |issued| - low));
    assert issued[low..][cut..] == issued[low + cut..];
  }

  lemma SpawnedIsConsistent(spawn: Report)
    ensures Consistent(Spawned(spawn), [], 0)
  {
    hide UnpackPosition, UnpackRotation, UnpackVelocityAndSpeed;
  }

  lemma {:induction false} RunIsConsistent(m: Maths, spawn: Report, events: seq<Event>)
    requires |Issued(events)| <= WRAP
    ensures Consistent(StateAfter(m, spawn, events), Issued(events), Forgotten(events))
  {
    hide Reconcile, ApplyInput, Prediction.Push, Consistent, Spawned, Max, Min;
    if events == [] {
      SpawnedIsConsistent(spawn);
    } else {
      var before, e := events[..|events| - 1], events[|events| - 1];
      RunIsConsistent(m, spawn, before);
      var x := Run(m, spawn, before);
      match e
      case Server(r, ack) =>
        ReconcileKeepsConsistent(m, x.state, Issued(before), Forgotten(before), r, ack);
      case Push(captured) =>
        if Pushes(e) { PushKeepsConsistent(x.state, Issued(before), Forgotten(before), captured); }
      case Apply =>
        if x.hand.Some? { ApplyKeepsConsistent(m, x.state, Issued(before), Forgotten(before), x.hand.value); }
    }
  }

  lemma AckedByInPrefix(events: seq<Event>, k: nat, i: nat)
    requires k < |events| - 1
    ensures AckedBy(events, k, i) <==> AckedBy(events[..|events| - 1], k, i)
  {
    assert events[..|events| - 1][..k] == events[..k];
  }

  /** What has been forgotten is what has been acknowledged. */
  lemma {:induction false} ForgottenIsAcked(events: seq<Event>, i: nat)
    ensures i < Forgotten(events) <==> Acked(events, i)
  {
    if events != [] {
      hide Issued, AckedBy;
      var n := |events| - 1;
      var before := events[..n];
      ForgottenIsAcked(before, i);
      forall k: nat | k < n ensures AckedBy(events, k, i) <==> AckedBy(before, k, i) {
        AckedByInPrefix(events, k, i);
      }
      LastStep(events, i);
      if Acked(before, i) {
        var k :| 0 <= k < |before| && AckedBy(before, k, i);
        assert AckedBy(events, k, i);
      }
      if Acked(events, i) && !AckedBy(events, n, i) {
        var k :| 0 <= k < |events| && AckedBy(events, k, i);
        assert AckedBy(before, k, i);
      }
    }
  }

  lemma LastStep(events: seq<Event>, i: nat)
    requires events != []
    ensures i < Forgotten(events) <==> i < Forgotten(events[..|events| - 1]) || AckedBy(events, |events| - 1, i)
  {
  }

  /** After every run that issues no more than 2^32 inputs, with reports handled at any point, the inputs
      pending are exactly those issued and never acknowledged, in order and numbered without a gap. */
  lemma PendingIsUnacked(m: Maths, spawn: Report, events: seq<Event>)
    requires |Issued(events)| <= 0x1_0000_0000
    ensures var pending, issued, low := StateAfter(m, spawn, events).pendingInputs, Issued(events), Forgotten(events);
            && low <= |issued| && pending == issued[low..]
            && (forall i :: 0 <= i < |issued| ==> issued[i].sequence == i)
            && (forall i: nat :: i < low <==> Acked(events, i))
  {
    hide StateAfter, Issued, Forgotten, Acked;
    RunIsConsistent(m, spawn, events);
    forall i: nat ensures i < Forgotten(events) <==> Acked(events, i) { ForgottenIsAcked(events, i); }
  }

  // ---------------------------------------------------------------------------------------------
  // Across the wrap
  // ---------------------------------------------------------------------------------------------

  ghost predicate NumberedModulo(inputs: seq<Input>, first: nat) {
    forall i :: 0 <= i < |inputs| ==> inputs[i].sequence == (first + i) % WRAP
  }

  /** Inputs numbered from `first` on run past the largest number and start again from zero. */
  predicate Straddles(first: nat, n: int) {
    first % WRAP + n > WRAP
  }

  lemma {:induction false} IssuedIsNumbered(events: seq<Event>)
    ensures NumberedModulo(Issued(events), 0)
  {
    hide Pushes;
    if events != [] {
      IssuedIsNumbered(events[..|events| - 1]);
    }
  }

  lemma WithoutWrap(n: nat)
    ensures n < WRAP ==> n % WRAP == n
    ensures WRAP <= n < 2 * WRAP ==> n % WRAP == n - WRAP
  {
  }

  lemma ShiftedNumbers(low: nat, i: nat)
    ensures (low + i) % WRAP == (low % WRAP + i) % WRAP
  {
    var q := low / WRAP;
    assert low + i == q * WRAP + (low % WRAP + i);
    ModuloOfSum(q, low % WRAP + i);
  }

  lemma ModuloOfSum(q: nat, n: nat)
    ensures (q * WRAP + n) % WRAP == n % WRAP
  {
  }

  lemma SuffixIsNumbered(inputs: seq<Input>, low: nat)
    requires NumberedModulo(inputs, 0) && low <= |inputs|
    ensures NumberedModulo(inputs[low..], low % WRAP)
  {
    forall i | 0 <= i < |inputs| - low ensures inputs[low..][i].sequence == (low % WRAP + i) % WRAP {
      ShiftedNumbers(low, i);
    }
  }

  lemma {:induction false} UnackedSplits(a: seq<Input>, b: seq<Input>, ack: u32)
    ensures Unacked(a + b, ack) == Unacked(a, ack) + Unacked(b, ack)
  {
    if a == [] {
      assert a + b == b;
    } else {
      assert (a + b)[0] == a[0] && (a + b)[1..] == a[1..] + b;
      UnackedSplits(a[1..], b, ack);
    }
  }

  lemma NoWrapInRange(inputs: seq<Input>, first: nat)
    requires NumberedModulo(inputs, first) && first + |inputs| <= WRAP
    ensures NumberedFrom(inputs, first)
  {
    forall i | 0 <= i < |inputs| ensures inputs[i].sequence == first + i { WithoutWrap(first + i); }
  }

  lemma HalvesAtWrap(inputs: seq<Input>, first: nat)
    requires NumberedModulo(inputs, first) && first < WRAP < first + |inputs| && |inputs| <= WRAP
    ensures NumberedFrom(inputs[..WRAP - first], first) && NumberedFrom(inputs[WRAP - first..], 0)
    ensures inputs == inputs[..WRAP - first] + inputs[WRAP - first..]
  {
    var cut := WRAP - first;
    forall i | 0 <= i < cut ensures inputs[..cut][i].sequence == first + i { WithoutWrap(first + i); }
    forall i | 0 <= i < |inputs| - cut ensures inputs[cut..][i].sequence == i {
      assert inputs[cut..][i] == inputs[cut + i];
      WithoutWrap(first + (cut + i));
    }
  }

  /** What an acknowledgement leaves of a list that straddles the wrap, from each half what is above it. */
  lemma UnackedAcrossWrap(inputs: seq<Input>, first: nat, ack: u32)
    requires NumberedModulo(inputs, first) && first < WRAP < first + |inputs| && |inputs| <= WRAP
    ensures var cut := WRAP - first;
            |Unacked(inputs, ack)| == cut - Max(0, Min(ack + 1 - first, cut))
                                    + (|inputs| - cut - Min(ack + 1, |inputs| - cut))
  {
    hide Unacked;
    HalvesAtWrap(inputs, first);
    var a, b := inputs[..WRAP - first], inputs[WRAP - first..];
    UnackedSplits(a, b, ack);
    UnackedOfRange(a, first, ack);
    UnackedOfRange(b, 0, ack);
  }

  /** Acknowledging the `j`-th pending input leaves exactly the later ones if and only if the list does not
      straddle the wrap. */
  lemma AckPendingIff(inputs: seq<Input>, first: nat, j: nat)
    requires NumberedModulo(inputs, first) && first < WRAP && j < |inputs| <= WRAP
    ensures Unacked(inputs, inputs[j].sequence) == inputs[j + 1..] <==> !Straddles(first, |inputs|)
  {
    hide Unacked;
    WithoutWrap(first);
    WithoutWrap(first + j);
    if first + |inputs| <= WRAP {
      NoWrapInRange(inputs, first);
      UnackedOfRange(inputs, first, inputs[j].sequence);
    } else {
      UnackedAcrossWrap(inputs, first, inputs[j].sequence);
    }
  }

  /** Acknowledging something older leaves the whole list if and only if the list does not straddle the wrap
      and begins above the number acknowledged. */
  lemma AckOlderIff(inputs: seq<Input>, first: nat, ack: u32)
    requires NumberedModulo(inputs, first) && first < WRAP && 0 < |inputs| <= WRAP
    ensures Unacked(inputs, ack) == inputs <==> !Straddles(first, |inputs|) && ack < first
  {
    hide Unacked;
    WithoutWrap(first);
    if first + |inputs| <= WRAP {
      NoWrapInRange(inputs, first);
      UnackedOfRange(inputs, first, ack);
    } else {
      UnackedAcrossWrap(inputs, first, ack);
    }
  }

  lemma AckOfIssuedIff(issued: seq<Input>, low: nat, k: nat)
    requires NumberedModulo(issued, 0) && low < |issued| <= low + WRAP && k < |issued|
    ensures Unacked(issued[low..], k % WRAP) == issued[Max(low, k + 1)..]
       <==> !Straddles(low, |issued| - low) && (k < low ==> k % WRAP < low % WRAP)
  {
    hide Unacked, NumberedModulo;
    SuffixIsNumbered(issued, low);
    var pending, first := issued[low..], low % WRAP;
    FirstOfFirst(low, |pending|);
    if k < low {
      hide Straddles;
      AckOlderIff(pending, first, k % WRAP);
    } else {
      hide Straddles;
      NumberAt(issued, k);
      assert pending[k - low] == issued[k] && pending[k - low + 1..] == issued[k + 1..];
      AckPendingIff(pending, first, k - low);
    }
  }

  lemma NumberAt(issued: seq<Input>, k: nat)
    requires NumberedModulo(issued, 0) && k < |issued|
    ensures issued[k].sequence == k % WRAP
  {
  }

  lemma FirstOfFirst(low: nat, n: int)
    ensures Straddles(low % WRAP, n) <==> Straddles(low, n)
  {
    WithoutWrap(low % WRAP);
  }

  /** In every run, however long: when the inputs from number `low` on are pending, a report that acknowledges
      input `k` leaves exactly the pending inputs after `k` if and only if the pending ones do not straddle the
      wrap and, should `k` not be pending any more, begin above its number. */
  lemma ReportForgetsExactlyIff(m: Maths, spawn: Report, events: seq<Event>, r: Report, low: nat, k: nat)
    requires low < |Issued(events)| <= low + WRAP && k < |Issued(events)|
    requires StateAfter(m, spawn, events).pendingInputs == Issued(events)[low..]
    ensures Reconcile(m, StateAfter(m, spawn, events), r, k % WRAP).pendingInputs
         == Issued(events)[Max(low, k + 1)..]
       <==> !Straddles(low, |Issued(events)| - low) && (k < low ==> k % WRAP < low % WRAP)
  {
    hide StateAfter, Issued, Reconcile, Unacked, Travel, Straddles;
    IssuedIsNumbered(events);
    ReconcileMoves(m, StateAfter(m, spawn, events), r, k % WRAP);
    AckOfIssuedIff(Issued(events), low, k);
  }

  /** How many inputs have been forgotten, when every report cuts the pending list once. */
  function CutAt(events: seq<Event>): nat {
    if events == [] then 0
    else
      var before, e := events[..|events| - 1], events[|events| - 1];
      var low := CutAt(before);
      if e.Server? then low + Max(0, Min(e.ack + 1 - low % WRAP, |Issued(before)| - low)) else low
  }

  /** No report finds the pending inputs straddling the wrap. */
  ghost predicate NeverStraddles(events: seq<Event>) {
    events != [] ==>
      var before, e := events[..|events| - 1], events[|events| - 1];
      && NeverStraddles(before)
      && (e.Server? ==> !Straddles(CutAt(before), |Issued(before)| - CutAt(before)))
  }

  lemma CutInside(low: nat, n: nat, ack: u32)
    requires low <= n
    ensures low <= low + Max(0, Min(ack + 1 - low % WRAP, n - low)) <= n
  {
  }

  /** Past 2^32 inputs, too: as long as no report finds the pending inputs straddling the wrap, they are a
      contiguous range of those issued, up to the last. */
  lemma {:induction false} PendingIsContiguous(m: Maths, spawn: Report, events: seq<Event>)
    requires NeverStraddles(events)
    ensures CutAt(events) <= |Issued(events)|
    ensures StateAfter(m, spawn, events).pendingInputs == Issued(events)[CutAt(events)..]
    ensures StateAfter(m, spawn, events).lastSequenceNumber == |Issued(events)| % WRAP
  {
    hide Reconcile, ApplyInput, Spawned, Max, Min, Straddles;
    if events == [] {
      SpawnedIsConsistent(spawn);
    } else {
      var before, e := events[..|events| - 1], events[|events| - 1];
      PendingIsContiguous(m, spawn, before);
      var x, low := Run(m, spawn, before), CutAt(before);
      match e
      case Server(r, ack) =>
        CutInside(low, |Issued(before)|, ack);
        ReportCuts(m, x.state, r, Issued(before), low, ack, before);
      case Push(captured) => OneMoreNumber(|Issued(before)|);
      case Apply =>
        if x.hand.Some? { ApplyKeepsInputs(m, x.state, x.hand.value); }
    }
  }

  lemma OneMoreNumber(n: nat)
    ensures (n % WRAP + 1) % WRAP == (n + 1) % WRAP
  {
    ShiftedNumbers(n, 1);
  }

  lemma ApplyKeepsInputs(m: Maths, s: State, input: Input)
    ensures ApplyInput(m, s, input).pendingInputs == s.pendingInputs
    ensures ApplyInput(m, s, input).lastSequenceNumber == s.lastSequenceNumber
  {
  }

  lemma ReportCuts(m: Maths, s: State, r: Report, issued: seq<Input>, low: nat, ack: u32, before: seq<Event>)
    requires issued == Issued(before) && low <= |issued| && s.pendingInputs == issued[low..]
    requires !Straddles(low, |issued| - low)
    ensures var low' := low + Max(0, Min(ack + 1 - low % WRAP, |issued| - low));
            && low <= low' <= |issued| && Reconcile(m, s, r, ack).pendingInputs == issued[low'..]
    ensures Reconcile(m, s, r, ack).lastSequenceNumber == s.lastSequenceNumber
  {
    hide Reconcile, Unacked, Travel, Issued;
    IssuedIsNumbered(before);
    SuffixIsNumbered(issued, low);
    NoWrapInRange(issued[low..], low % WRAP);
    UnackedOfRange(issued[low..], low % WRAP, ack);
    ReconcileMoves(m, s, r, ack);
    var cut := Max(0, Min(ack + 1 - low % WRAP, |issued| - low));
    assert issued[low..][cut..] == issued[low + cut..];
  }

  // ---------------------------------------------------------------------------------------------
  // A run that loses an input at the wrap
  // ---------------------------------------------------------------------------------------------

  function Tapping(captured: Input, n: nat): seq<Event> {
    if n == 0 then [] else Tapping(captured, n - 1) + [Push(captured), Apply]
  }

  lemma IssuedAppends(events: seq<Event>, e: Event)
    ensures |Issued(events + [e])| == |Issued(events)| + if Pushes(e) then 1 else 0
    ensures CutAt(events + [e]) ==
            var low, n := CutAt(events), |Issued(events)|;
            if e.Server? then low + Max(0, Min(e.ack + 1 - low % WRAP, n - low)) else low
    ensures NeverStraddles(events + [e]) <==>
            NeverStraddles(events) && (e.Server? ==> !Straddles(CutAt(events), |Issued(events)| - CutAt(events)))
  {
    hide Pushes, Straddles, Max, Min;
    assert (events + [e])[..|events|] == events;
  }

  lemma {:induction false} TappingIssues(captured: Input, n: nat)
    requires captured.timestamp != 0.0
    ensures |Issued(Tapping(captured, n))| == n && CutAt(Tapping(captured, n)) == 0
    ensures NeverStraddles(Tapping(captured, n))
  {
    hide Issued, CutAt, NeverStraddles, Straddles, Max, Min;
    if n == 0 {
      NothingIssued();
    } else {
      var before := Tapping(captured, n - 1);
      TappingIssues(captured, n - 1);
      IssuedAppends(before, Push(captured));
      IssuedAppends(before + [Push(captured)], Apply);
      assert Tapping(captured, n) == before + [Push(captured)] + [Apply];
    }
  }

  lemma NothingIssued()
    ensures Issued([]) == [] && CutAt([]) == 0 && NeverStraddles([])
  {
  }

  /** 2^32 - 1 inputs, all acknowledged; two more, numbered 2^32 - 1 and 0; and a report that acknowledges the
      first of the two. */
  function AroundTheWrap(captured: Input, r: Report): seq<Event> {
    Tapping(captured, WRAP - 1) + [Server(r, WRAP - 2)] + [Push(captured)] + [Apply] + [Push(captured)] + [Apply]
    + [Server(r, WRAP - 1)]
  }

  /** The failing run, for every spawn: the last input has been issued and not acknowledged, and it is not
      pending. */
  lemma WrapDiscardsUnacked(m: Maths, spawn: Report, captured: Input, r: Report)
    requires captured.timestamp != 0.0
    ensures var events := AroundTheWrap(captured, r);
            && |Issued(events)| == 0x1_0000_0001 && !Acked(events, 0x1_0000_0000)
            && StateAfter(m, spawn, events).pendingInputs == []
            && Issued(events)[0x1_0000_0000].sequence == 0
  {
    hide Issued, CutAt, NeverStraddles, StateAfter, Reconcile, Tapping;
    var e0 := Tapping(captured, WRAP - 1);
    TappingIssues(captured, WRAP - 1);
    IssuedAppends(e0, Server(r, WRAP - 2));
    var e1 := e0 + [Server(r, WRAP - 2)];
    IssuedAppends(e1, Push(captured));
    var e2 := e1 + [Push(captured)];
    IssuedAppends(e2, Apply);
    var e3 := e2 + [Apply];
    IssuedAppends(e3, Push(captured));
    var e4 := e3 + [Push(captured)];
    IssuedAppends(e4, Apply);
    var e5 := e4 + [Apply];
    assert CutAt(e5) == WRAP - 1 && |Issued(e5)| == WRAP + 1 && NeverStraddles(e5);
    PendingIsContiguous(m, spawn, e5);
    IssuedAppends(e5, Server(r, WRAP - 1));
    IssuedIsNumbered(e5 + [Server(r, WRAP - 1)]);
    LastReportDiscards(m, spawn, e5, r);
    NotAckedAtWrap(e5 + [Server(r, WRAP - 1)]);
  }

  lemma NotAckedAtWrap(events: seq<Event>)
    ensures !Acked(events, WRAP)
  {
  }

  lemma LastReportDiscards(m: Maths, spawn: Report, events: seq<Event>, r: Report)
    requires |Issued(events)| == WRAP + 1
    requires StateAfter(m, spawn, events).pendingInputs == Issued(events)[WRAP - 1..]
    ensures StateAfter(m, spawn, events + [Server(r, WRAP - 1)]).pendingInputs == []
  {
    hide Issued, Reconcile, Unacked, Travel;
    var s, pending := StateAfter(m, spawn, events), Issued(events)[WRAP - 1..];
    assert (events + [Server(r, WRAP - 1)])[..|events|] == events;
    IssuedIsNumbered(events);
    SuffixIsNumbered(Issued(events), WRAP - 1);
    WithoutWrap(WRAP - 1);
    UnackedAcrossWrap(pending, WRAP - 1, WRAP - 1);
    ReconcileMoves(m, s, r, WRAP - 1);
  }
}
