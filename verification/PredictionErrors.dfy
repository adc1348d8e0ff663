/** How far the player is drawn from where the server will be once it has seen every input: after a report,
    between reports, and under smoothing (DummyClient/Player.cpp). */
module PredictionErrors {

  import opened Options
  import opened Vectors
  import opened TransformCompressor
  import opened Prediction
  import opened PredictionRuns

  // ---------------------------------------------------------------------------------------------
  // Where the player is drawn after a report
  // ---------------------------------------------------------------------------------------------

  /** What the inputs replayed after a report are turned into. */
  function ReportedDrive(r: Report): Drive {
    Drive(UnpackRotation(r.rotation).0, UnpackVelocityAndSpeed(r.velocitySpeed).1, 0.0)
  }

  function UpTo(inputs: seq<Input>, n: nat): seq<Input> { if n <= |inputs| then inputs[..n] else inputs }

  function After(inputs: seq<Input>, n: nat): seq<Input> { if n <= |inputs| then inputs[n..] else [] }

  /** Where the server will be once it has also applied every input it has not acknowledged. */
  function Ideal(m: Maths, events: seq<Event>, r: Report, ack: u32): Vec3 {
    Plus(UnpackPosition(r.position), Travel(m, ReportedDrive(r), After(Issued(events), ack + 1)))
  }

  /** If the server got to its position by applying the acknowledged inputs, that is the place all inputs
      lead to. */
  lemma IdealIsFoldOfAll(m: Maths, events: seq<Event>, r: Report, ack: u32, base: Vec3)
    ensures UnpackPosition(r.position) == Plus(base, Travel(m, ReportedDrive(r), UpTo(Issued(events), ack + 1)))
       <==> Ideal(m, events, r, ack) == Plus(base, Travel(m, ReportedDrive(r), Issued(events)))
  {
    hide UnpackPosition, ReportedDrive;
    hide Plus, Travel, Issued;
    var all, d := Issued(events), ReportedDrive(r);
    if ack + 1 <= |all| {
      TravelCut(m, d, all, ack + 1);
    } else {
      TravelNowhere(m, d);
    }
    CancelLast(UnpackPosition(r.position), base, Travel(m, d, UpTo(all, ack + 1)), Travel(m, d, After(all, ack + 1)));
    PlusZero(Travel(m, d, all));
  }

  lemma TravelNowhere(m: Maths, d: Drive)
    ensures Travel(m, d, []) == ZERO
  {
  }

  lemma PlusZero(a: Vec3)
    ensures Plus(a, ZERO) == a && Plus(ZERO, a) == a
  {
  }

  lemma CancelLast(u: Vec3, base: Vec3, a: Vec3, b: Vec3)
    ensures u == Plus(base, a) <==> Plus(u, b) == Plus(base, Plus(a, b))
  {
  }

  /** Inputs newer than the acknowledgement that an earlier, larger acknowledgement has discarded. */
  function Skipped(events: seq<Event>, ack: u32): seq<Input> {
    if ack + 1 <= Forgotten(events) <= |Issued(events)| then Issued(events)[ack + 1..Forgotten(events)] else []
  }

  lemma AfterSkipped(m: Maths, d: Drive, events: seq<Event>, ack: u32)
    requires |Issued(events)| <= WRAP && Forgotten(events) <= |Issued(events)|
    ensures Travel(m, d, After(Issued(events), ack + 1))
         == Plus(Travel(m, d, Skipped(events, ack)),
                 Travel(m, d, Issued(events)[Max(Forgotten(events), Min(ack + 1, |Issued(events)|))..]))
  {
    hide Travel, Issued, Forgotten;
    var all, low := Issued(events), Forgotten(events);
    TravelNowhere(m, d);
    if ack + 1 <= low {
      TravelCut(m, d, all[ack + 1..], low - (ack + 1));
      assert all[ack + 1..][..low - (ack + 1)] == Skipped(events, ack);
      assert all[ack + 1..][low - (ack + 1)..] == all[low..];
    }
    assert all[|all|..] == [];
  }

  /** Reconciling leads to the corrected position moved by the pending inputs. */
  lemma ReconcileReplays(m: Maths, spawn: Report, events: seq<Event>, r: Report, ack: u32)
    requires |Issued(events)| <= WRAP
    ensures Plus(Reconcile(m, StateAfter(m, spawn, events), r, ack).renderPosition,
                 Travel(m, ReportedDrive(r), Skipped(events, ack)))
         == Plus(CorrectedPosition(Receive(StateAfter(m, spawn, events), r)),
                 Travel(m, ReportedDrive(r), After(Issued(events), ack + 1)))
  {
    hide StateAfter, Issued, Forgotten, CorrectedPosition, Reconcile, Skipped, After, Travel;
    var s := StateAfter(m, spawn, events);
    RunIsConsistent(m, spawn, events);
    ReconcileMoves(m, s, r, ack);
    DriveIsReported(s, r);
    PendingAfter(Issued(events), Forgotten(events), ack);
    AfterSkipped(m, ReportedDrive(r), events, ack);
  }

  lemma DriveIsReported(s: State, r: Report)
    requires s.renderVelocity.y == 0.0
    ensures DriveOf(Receive(s, r)) == ReportedDrive(r)
  {
  }

  ghost predicate Stale(events: seq<Event>, ack: u32) {
    ack + 1 < Forgotten(events)
  }

  /** Where the player is drawn after a report, by comparison with where it ought to be. */
  function Error(m: Maths, spawn: Report, events: seq<Event>, r: Report, ack: u32): Vec3 {
    Minus(Reconcile(m, StateAfter(m, spawn, events), r, ack).renderPosition, Ideal(m, events, r, ack))
  }

  predicate Snaps(m: Maths, spawn: Report, events: seq<Event>, r: Report) {
    TooFar(Receive(StateAfter(m, spawn, events), r))
  }

  /** A report snaps exactly if it is more than 0.7 away from what is rendered. */
  lemma SnapsIffFar(m: Maths, spawn: Report, events: seq<Event>, r: Report)
    ensures Snaps(m, spawn, events, r) <==>
            var u, p := UnpackPosition(r.position), StateAfter(m, spawn, events).renderPosition;
            (u.x - p.x) * (u.x - p.x) + (u.y - p.y) * (u.y - p.y) + (u.z - p.z) * (u.z - p.z) > 0.49
  {
    hide UnpackPosition, UnpackRotation, UnpackVelocityAndSpeed, StateAfter;
  }

  lemma FreshSkipsNothing(m: Maths, d: Drive, events: seq<Event>, ack: u32)
    requires !Stale(events, ack)
    ensures Travel(m, d, Skipped(events, ack)) == ZERO
  {
    TravelNowhere(m, d);
    assert Skipped(events, ack) == [];
  }

  /** A report that is far off replaces the rendered position, and the replay then puts it exactly where it
      ought to be if and only if the inputs skipped amount to no movement; none are skipped unless the
      acknowledgement is older than one handled before. */
  lemma SnapIsExactIff(m: Maths, spawn: Report, events: seq<Event>, r: Report, ack: u32)
    requires |Issued(events)| <= WRAP && Snaps(m, spawn, events, r)
    ensures Error(m, spawn, events, r, ack) == Minus(ZERO, Travel(m, ReportedDrive(r), Skipped(events, ack)))
    ensures Reconcile(m, StateAfter(m, spawn, events), r, ack).renderPosition == Ideal(m, events, r, ack) <==>
            Travel(m, ReportedDrive(r), Skipped(events, ack)) == ZERO
    ensures !Stale(events, ack) ==>
              Reconcile(m, StateAfter(m, spawn, events), r, ack).renderPosition == Ideal(m, events, r, ack)
  {
    hide StateAfter, Issued, Forgotten, Reconcile, Skipped, After, Travel, ReportedDrive, UnpackPosition;
    ReconcileReplays(m, spawn, events, r, ack);
    if !Stale(events, ack) {
      FreshSkipsNothing(m, ReportedDrive(r), events, ack);
    }
    SnapsToReport(m, spawn, events, r);
  }

  lemma SnapsToReport(m: Maths, spawn: Report, events: seq<Event>, r: Report)
    requires Snaps(m, spawn, events, r)
    ensures CorrectedPosition(Receive(StateAfter(m, spawn, events), r)) == UnpackPosition(r.position)
  {
    hide UnpackPosition, UnpackVelocityAndSpeed, UnpackRotation, StateAfter;
  }

  predicate InWorld(v: Vec3) {
    && WORLD_RANGE_MIN <= v.x <= WORLD_RANGE_MAX && WORLD_RANGE_MIN <= v.z <= WORLD_RANGE_MAX
    && 0.0 <= v.y < 256.0
  }

  lemma InWorldFits(v: Vec3)
    requires InWorld(v)
    ensures HeightFits(v.y)
  {
    TruncOf(v.y * 128.0);
  }

  lemma TransmissionError(truth: Vec3)
    requires InWorld(truth)
    ensures HeightFits(truth.y)
    ensures var u := UnpackPosition(PackPosition(truth));
            && Distance(u.x, truth.x) <= HALF_RES && Distance(u.z, truth.z) <= HALF_RES
            && Distance(u.y, truth.y) < 1.0 / 128.0
  {
    InWorldFits(truth);
    PositionRoundTrip(truth);
    QuantizationBoundIff(truth.x);
    QuantizationBoundIff(truth.z);
    HeightRoundTripIff(truth.y);
  }

  /** From the server's own position, through the packet, to the screen: if the server really is where the
      inputs up to the acknowledged one lead from `base`, then after a snap the player is drawn where all
      its inputs lead from there, to within half a quantization step in the plane and 1/128 in height. */
  lemma PredictionErrorBound(m: Maths, spawn: Report, events: seq<Event>, r: Report, ack: u32, base: Vec3)
    requires |Issued(events)| <= WRAP && Snaps(m, spawn, events, r)
    ensures !Stale(events, ack) &&
            ReportsTruth(r, Plus(base, Travel(m, ReportedDrive(r), UpTo(Issued(events), ack + 1)))) ==>
            var shown := Reconcile(m, StateAfter(m, spawn, events), r, ack).renderPosition;
            var all := Plus(base, Travel(m, ReportedDrive(r), Issued(events)));
            && Distance(shown.x, all.x) <= HALF_RES && Distance(shown.z, all.z) <= HALF_RES
            && Distance(shown.y, all.y) < 1.0 / 128.0
  {
    hide StateAfter, Issued, Forgotten, Reconcile, Skipped, After, UpTo, Travel, ReportedDrive, UnpackPosition,
         PackPosition, InWorld, Snaps, Stale, HeightFits;
    var d := ReportedDrive(r);
    var truth := Plus(base, Travel(m, d, UpTo(Issued(events), ack + 1)));
    if !Stale(events, ack) && ReportsTruth(r, truth) {
      SnapIsExactIff(m, spawn, events, r, ack);
      TransmissionError(truth);
      var shift := Minus(UnpackPosition(r.position), truth);
      var base' := Plus(base, shift);
      IdealIsFoldOfAll(m, events, r, ack, base');
    }
  }

  predicate ReportsTruth(r: Report, truth: Vec3) {
    InWorld(truth) && HeightFits(truth.y) && r.position == PackPosition(truth)
  }

  // ---------------------------------------------------------------------------------------------
  // Between reports
  // ---------------------------------------------------------------------------------------------

  /** What applying the input in hand will add. */
  function Owed(m: Maths, d: Drive, hand: Option<Input>): Vec3 {
    if hand.None? then ZERO else Step(m, d, hand.value.keyField)
  }

  ghost predicate NoReports(events: seq<Event>) {
    forall k :: 0 <= k < |events| ==> !events[k].Server?
  }

  /** Pushing an input owes its step, applying it pays. */
  lemma StepBalances(m: Maths, x: Client, e: Event)
    requires !e.Server? && (Pushes(e) ==> x.hand.None?)
    ensures var y, d := Next(m, x, e), DriveOf(x.state);
            && DriveOf(y.state) == d
            && Plus(y.state.renderPosition, Owed(m, d, y.hand))
            == Plus(Plus(x.state.renderPosition, Owed(m, d, x.hand)),
                    if Pushes(e) then Step(m, d, e.captured.keyField) else ZERO)
  {
    hide Step, ApplyInput;
    if e.Apply? && x.hand.Some? {
      StepsKeepDrive(m, x.state, x.hand.value);
    }
  }

  lemma OneMoreStep(m: Maths, spawn: Report, events: seq<Event>, e: Event)
    ensures var more := events + [e];
            && Run(m, spawn, more) == Next(m, Run(m, spawn, events), e)
            && Issued(more) == (if Pushes(e) then Issued(events) + [e.captured.(sequence := |Issued(events)| % WRAP)]
                                else Issued(events))
    ensures Orderly(m, spawn, events + [e]) ==>
              Orderly(m, spawn, events) && (Pushes(e) ==> Run(m, spawn, events).hand.None?)
  {
    hide Next, Pushes;
    var more := events + [e];
    assert more[..|events|] == events;
    if Orderly(m, spawn, more) {
      forall k | 0 <= k < |events| && Pushes(events[k]) ensures Run(m, spawn, events[..k]).hand.None? {
        assert more[k] == events[k] && more[..k] == events[..k];
      }
      assert more[|events|] == e;
    }
  }

  lemma TravelOneMore(m: Maths, d: Drive, inputs: seq<Input>, input: Input, n: nat)
    requires n <= |inputs|
    ensures Travel(m, d, After(inputs + [input], n)) == Plus(Travel(m, d, After(inputs, n)), Step(m, d, input.keyField))
  {
    hide Step;
    assert (inputs + [input])[n..] == inputs[n..] + [input];
    TravelSplits(m, d, inputs[n..], [input]);
    OneStep(m, d, input);
  }

  /** What is shown, with what is owed, stays as far from `base` plus the inputs from number `n` on as it is. */
  ghost predicate StaysOff(m: Maths, x: Client, d: Drive, base: Vec3, issued: seq<Input>, n: nat, off: Vec3) {
    && n <= |issued| && DriveOf(x.state) == d
    && Plus(x.state.renderPosition, Owed(m, d, x.hand)) == Plus(Plus(base, Travel(m, d, After(issued, n))), off)
  }

  lemma StepStaysOff(m: Maths, x: Client, e: Event, d: Drive, base: Vec3, issued: seq<Input>, n: nat, off: Vec3)
    requires StaysOff(m, x, d, base, issued, n, off) && !e.Server? && (Pushes(e) ==> x.hand.None?)
    ensures StaysOff(m, Next(m, x, e), d, base,
              if Pushes(e) then issued + [e.captured.(sequence := |issued| % WRAP)] else issued, n, off)
  {
    hide Next, Travel, Step, After, Owed;
    StepBalances(m, x, e);
    if Pushes(e) {
      TravelOneMore(m, d, issued, e.captured.(sequence := |issued| % WRAP), n);
    }
  }

  lemma {:induction false} RunStaysOff(m: Maths, spawn: Report, before: seq<Event>, rest: seq<Event>,
                                       d: Drive, base: Vec3, n: nat, off: Vec3)
    requires StaysOff(m, Run(m, spawn, before), d, base, Issued(before), n, off)
    requires NoReports(rest) && Orderly(m, spawn, before + rest)
    ensures StaysOff(m, Run(m, spawn, before + rest), d, base, Issued(before + rest), n, off)
  {
    hide StaysOff, Next, Orderly, Pushes, Run, Issued;
    if rest == [] {
      assert before + rest == before;
    } else {
      var some, e := rest[..|rest| - 1], rest[|rest| - 1];
      assert before + rest == (before + some) + [e];
      OneMoreStep(m, spawn, before + some, e);
      RunStaysOff(m, spawn, before, some, d, base, n, off);
      StepStaysOff(m, Run(m, spawn, before + some), e, d, base, Issued(before + some), n, off);
    }
  }

  lemma ReportSetsDrive(m: Maths, s: State, r: Report, ack: u32)
    requires s.renderVelocity.y == 0.0
    ensures DriveOf(Reconcile(m, s, r, ack)) == ReportedDrive(r)
  {
    hide CorrectedPosition, LerpAngle, UnpackPosition, UnpackRotation, UnpackVelocityAndSpeed, TurnedTooFar,
         Travel, Unacked;
    ReplayMoves(m, Correct(Receive(s, r)), s.pendingInputs, ack);
  }

  /** How far off the report leaves the player, with what was in hand when it came. */
  lemma ReportStartsOff(m: Maths, spawn: Report, events: seq<Event>, r: Report, ack: u32)
    requires |Issued(events)| <= WRAP && ack < |Issued(events)|
    ensures var before, d := events + [Server(r, ack)], ReportedDrive(r);
            StaysOff(m, Run(m, spawn, before), d, UnpackPosition(r.position), Issued(before), ack + 1,
                     Plus(Error(m, spawn, events, r, ack), Owed(m, d, Run(m, spawn, events).hand)))
  {
    hide Reconcile, Issued, After, Travel, Owed, UnpackPosition, ReportedDrive, Orderly, Forgotten;
    OneMoreStep(m, spawn, events, Server(r, ack));
    RunIsConsistent(m, spawn, events);
    ReportSetsDrive(m, StateAfter(m, spawn, events), r, ack);
  }

  /** From one report to the next, however many inputs the player makes: once every input pushed has been
      applied, the error is what the report left, plus the step of the input that was in hand when the report
      was handled.  So it is unchanged if and only if no `Update` was under way, or its step is no movement. */
  lemma ErrorUnchangedIff(m: Maths, spawn: Report, events: seq<Event>, r: Report, ack: u32, rest: seq<Event>)
    requires |Issued(events)| <= WRAP && ack < |Issued(events)|
    requires NoReports(rest) && Orderly(m, spawn, events + [Server(r, ack)] + rest)
    requires Run(m, spawn, events + [Server(r, ack)] + rest).hand.None?
    ensures var all, hand := events + [Server(r, ack)] + rest, Run(m, spawn, events).hand;
            var before, after := Error(m, spawn, events, r, ack),
                                 Minus(StateAfter(m, spawn, all).renderPosition, Ideal(m, all, r, ack));
            && after == Plus(before, Owed(m, ReportedDrive(r), hand))
            && (after == before <==> hand.None? || Step(m, ReportedDrive(r), hand.value.keyField) == ZERO)
  {
    hide Run, Issued, After, Travel, Step, UnpackPosition, ReportedDrive, Error, Orderly;
    var before, d := events + [Server(r, ack)], ReportedDrive(r);
    var off := Plus(Error(m, spawn, events, r, ack), Owed(m, d, Run(m, spawn, events).hand));
    ReportStartsOff(m, spawn, events, r, ack);
    RunStaysOff(m, spawn, before, rest, d, UnpackPosition(r.position), ack + 1, off);
  }

  /** Before the first report the player is drawn where its inputs lead from the origin, wherever the spawn
      packet put it. */
  lemma DrawnFromOriginUntilReport(m: Maths, spawn: Report, rest: seq<Event>)
    requires NoReports(rest) && Orderly(m, spawn, rest) && Run(m, spawn, rest).hand.None?
    ensures StateAfter(m, spawn, rest).renderPosition == Travel(m, ReportedDrive(spawn), Issued(rest))
  {
    hide Next, Travel, UnpackPosition, UnpackRotation, UnpackVelocityAndSpeed, Orderly;
    TravelNowhere(m, ReportedDrive(spawn));
    assert [] + rest == rest;
    assert StaysOff(m, Run(m, spawn, []), ReportedDrive(spawn), ZERO, Issued([]), 0, ZERO);
    RunStaysOff(m, spawn, [], rest, ReportedDrive(spawn), ZERO, 0, ZERO);
  }

  lemma OrderlyExtends(m: Maths, spawn: Report, events: seq<Event>, e: Event)
    requires Orderly(m, spawn, events) && (Pushes(e) ==> Run(m, spawn, events).hand.None?)
    ensures Orderly(m, spawn, events + [e])
  {
    hide Pushes, Run;
    var more := events + [e];
    forall k | 0 <= k < |more| && Pushes(more[k]) ensures Run(m, spawn, more[..k]).hand.None? {
      if k < |events| {
        assert more[k] == events[k] && more[..k] == events[..k];
      } else {
        assert more[..k] == events;
      }
    }
  }

  lemma PushForgetsNothing(events: seq<Event>, captured: Input)
    ensures Forgotten(events + [Push(captured)]) == Forgotten(events)
  {
    assert (events + [Push(captured)])[..|events|] == events;
  }

  /** The report finds the input just pushed, and replays it. */
  lemma ReportReplaysPushed(m: Maths, spawn: Report, events: seq<Event>, captured: Input, r: Report, ack: u32)
    requires captured.timestamp != 0.0 && ack < |Issued(events)| < WRAP && !Stale(events, ack)
    requires Snaps(m, spawn, events + [Push(captured)], r)
    ensures var pushed := events + [Push(captured)];
            var x := Run(m, spawn, pushed + [Server(r, ack)]);
            && x.hand == Some(captured.(sequence := |Issued(events)|))
            && x.hand.value in x.state.pendingInputs && DriveOf(x.state) == ReportedDrive(r)
            && x.state.renderPosition == Ideal(m, pushed, r, ack)
  {
    hide Travel, Reconcile, UnpackPosition, ReportedDrive, Snaps, Ideal, Issued, Forgotten, Max, Min, NumberedFrom;
    var pushed := events + [Push(captured)];
    OneMoreStep(m, spawn, events, Push(captured));
    OneMoreStep(m, spawn, pushed, Server(r, ack));
    PushForgetsNothing(events, captured);
    RunIsConsistent(m, spawn, events);
    RunIsConsistent(m, spawn, pushed);
    SnapIsExactIff(m, spawn, pushed, r, ack);
    ReportSetsDrive(m, StateAfter(m, spawn, pushed), r, ack);
    NextNumber(|Issued(events)|);
    LastIsKept(m, StateAfter(m, spawn, pushed), Issued(pushed), Forgotten(pushed), r, ack);
  }

  lemma LastIsKept(m: Maths, s: State, issued: seq<Input>, low: nat, r: Report, ack: u32)
    requires Consistent(s, issued, low) && issued != [] && low < |issued| && ack + 1 < |issued|
    ensures issued[|issued| - 1] in Reconcile(m, s, r, ack).pendingInputs
  {
    hide Reconcile;
    ReconcileKeepsConsistent(m, s, issued, low, r, ack);
    var low' := Max(low, Min(ack + 1, |issued|));
    assert issued[low'..][|issued| - 1 - low'] == issued[|issued| - 1];
  }

  /** The failing run: a report that snaps between the push and the apply of one input replays the input from
      the pending list, and then it is applied again. */
  lemma ReportInBetweenAppliesTwice(m: Maths, spawn: Report, events: seq<Event>, captured: Input,
                                    r: Report, ack: u32)
    requires Orderly(m, spawn, events) && Run(m, spawn, events).hand.None? && captured.timestamp != 0.0
    requires ack < |Issued(events)| < WRAP && !Stale(events, ack) && Snaps(m, spawn, events + [Push(captured)], r)
    ensures var pushed := events + [Push(captured)];
            var all := pushed + [Server(r, ack)] + [Apply];
            var step := Step(m, ReportedDrive(r), captured.keyField);
            && Orderly(m, spawn, all) && Run(m, spawn, all).hand.None?
            && captured.(sequence := |Issued(events)|) in StateAfter(m, spawn, all).pendingInputs
            && StateAfter(m, spawn, all).renderPosition == Plus(Ideal(m, pushed, r, ack), step)
            && Ideal(m, all, r, ack) == Ideal(m, pushed, r, ack)
            && (Faithful(m) && captured.keyField & 15 != 0 && ReportedDrive(r).moveSpeed != 0.0 ==> step != ZERO)
  {
    hide Travel, Reconcile, Step, UnpackPosition, ReportedDrive, Faithful, Snaps, Issued, Run, Orderly, After, Stale,
         ApplyInput;
    var pushed := events + [Push(captured)];
    var reported := pushed + [Server(r, ack)];
    ReportReplaysPushed(m, spawn, events, captured, r, ack);
    OneMoreStep(m, spawn, pushed, Server(r, ack));
    OneMoreStep(m, spawn, reported, Apply);
    OrderlyExtends(m, spawn, events, Push(captured));
    OrderlyExtends(m, spawn, pushed, Server(r, ack));
    OrderlyExtends(m, spawn, reported, Apply);
    var x := Run(m, spawn, reported);
    StepsKeepDrive(m, x.state, x.hand.value);
    ApplyLeavesPending(m, x.state, x.hand.value);
    if Faithful(m) && captured.keyField & 15 != 0 && ReportedDrive(r).moveSpeed != 0.0 {
      StepMoves(m, ReportedDrive(r), captured.keyField);
    }
  }

  lemma ApplyLeavesPending(m: Maths, s: State, input: Input)
    ensures ApplyInput(m, s, input).pendingInputs == s.pendingInputs
  {
  }

  lemma StepMoves(m: Maths, d: Drive, keyField: bv32)
    requires Faithful(m) && keyField & 15 != 0 && d.moveSpeed != 0.0
    ensures Step(m, d, keyField) != ZERO
  {
    hide Velocity, Faithful;
    PlanarSpeed(m, d, keyField);
    var v := Velocity(m, d, keyField);
    NotBothZero(v.x, v.z, d.moveSpeed);
  }

  lemma NotBothZero(x: real, z: real, k: real)
    requires x * x + z * z == k * k && k != 0.0
    ensures x != 0.0 || z != 0.0
  {
    assert Product(x, x) + Product(z, z) == Product(k, k);
    SquareIsPositive(k);
  }

  // ---------------------------------------------------------------------------------------------
  // Smoothing
  // ---------------------------------------------------------------------------------------------

  /** A reported position has been expanded already, so the compression error computed for it vanishes in
      the plane; in height, which is packed on another scale, it is merely small. */
  lemma CompressionErrorOfReport(w: u64)
    ensures var u := UnpackPosition(w);
            && Minus(u, Quantized(u)).x == 0.0 && Minus(u, Quantized(u)).z == 0.0
            && Distance(Minus(u, Quantized(u)).y, 0.0) <= HALF_RES
  {
    UnpackedCoordinates(w);
    CompressInvertsExpand(Split(w).a);
    CompressInvertsExpand(Split(w).c);
    QuantizationBoundIff(UnpackPosition(w).y);
  }

  lemma {:induction false} TravelIsLevel(m: Maths, d: Drive, inputs: seq<Input>)
    requires d.rise == 0.0
    ensures Travel(m, d, inputs).y == 0.0
  {
    if inputs != [] { TravelIsLevel(m, d, inputs[1..]); }
  }

  lemma SmoothingHalves(s: State, r: Report)
    requires !TooFar(Receive(s, r))
    ensures var p, u := CorrectedPosition(Receive(s, r)), UnpackPosition(r.position);
            && p.x == (s.renderPosition.x + u.x) / 2.0 && p.z == (s.renderPosition.z + u.z) / 2.0
            && Distance(p.y, (s.renderPosition.y + u.y) / 2.0) <= HALF_RES / 2.0
  {
    hide UnpackPosition, UnpackVelocityAndSpeed, UnpackRotation, Quantized;
    CompressionErrorOfReport(r.position);
  }

  /** A report that is close is averaged with the rendered position before the replay, although that position
      contains the unacknowledged inputs already.  The error is therefore not halved: it becomes the mean of
      itself and the whole unacknowledged movement, less the inputs skipped. */
  lemma SmoothingError(m: Maths, spawn: Report, events: seq<Event>, r: Report, ack: u32)
    requires |Issued(events)| <= WRAP && !Snaps(m, spawn, events, r)
    ensures var before := Minus(StateAfter(m, spawn, events).renderPosition, Ideal(m, events, r, ack));
            var moved := Travel(m, ReportedDrive(r), After(Issued(events), ack + 1));
            var lost := Travel(m, ReportedDrive(r), Skipped(events, ack));
            var after := Error(m, spawn, events, r, ack);
            && after.x == (before.x + moved.x) / 2.0 - lost.x
            && after.z == (before.z + moved.z) / 2.0 - lost.z
            && Distance(after.y, before.y / 2.0) <= HALF_RES / 2.0
            && (!Stale(events, ack) ==> lost == ZERO)
  {
    hide StateAfter, Issued, Forgotten, Reconcile, CorrectedPosition, Skipped, After, Travel, UnpackPosition,
         UnpackRotation, UnpackVelocityAndSpeed, Stale;
    ReconcileReplays(m, spawn, events, r, ack);
    if !Stale(events, ack) {
      FreshSkipsNothing(m, ReportedDrive(r), events, ack);
    }
    SmoothingHalves(StateAfter(m, spawn, events), r);
    TravelIsLevel(m, ReportedDrive(r), After(Issued(events), ack + 1));
    TravelIsLevel(m, ReportedDrive(r), Skipped(events, ack));
  }

  /** A prediction that was right stays right under smoothing exactly if the unacknowledged movement is twice
      the skipped one, which for an acknowledgement in order means that nothing unacknowledged moved the
      player; otherwise it overshoots by half of that movement. */
  lemma SmoothingIsExactIff(m: Maths, spawn: Report, events: seq<Event>, r: Report, ack: u32)
    requires |Issued(events)| <= WRAP && !Snaps(m, spawn, events, r)
    requires StateAfter(m, spawn, events).renderPosition == Ideal(m, events, r, ack)
    ensures var moved := Travel(m, ReportedDrive(r), After(Issued(events), ack + 1));
            var lost := Travel(m, ReportedDrive(r), Skipped(events, ack));
            var error := Error(m, spawn, events, r, ack);
            && error.x == moved.x / 2.0 - lost.x && error.z == moved.z / 2.0 - lost.z
            && (error.x == 0.0 && error.z == 0.0 <==> moved == Scale(lost, 2.0))
            && (!Stale(events, ack) ==> (error.x == 0.0 && error.z == 0.0 <==> moved == ZERO))
  {
    hide *;
    SmoothingError(m, spawn, events, r, ack);
    var moved := Travel(m, ReportedDrive(r), After(Issued(events), ack + 1));
    var lost := Travel(m, ReportedDrive(r), Skipped(events, ack));
    ReportedTravelIsLevel(m, r, After(Issued(events), ack + 1));
    ReportedTravelIsLevel(m, r, Skipped(events, ack));
    NoError(StateAfter(m, spawn, events).renderPosition, Ideal(m, events, r, ack), moved, lost,
            Error(m, spawn, events, r, ack));
  }

  lemma ReportedTravelIsLevel(m: Maths, r: Report, inputs: seq<Input>)
    ensures Travel(m, ReportedDrive(r), inputs).y == 0.0
  {
    TravelIsLevel(m, ReportedDrive(r), inputs);
  }

  lemma NoError(shown: Vec3, ideal: Vec3, moved: Vec3, lost: Vec3, error: Vec3)
    requires shown == ideal && moved.y == 0.0 && lost.y == 0.0
    requires error.x == (Minus(shown, ideal).x + moved.x) / 2.0 - lost.x
    requires error.z == (Minus(shown, ideal).z + moved.z) / 2.0 - lost.z
    ensures error.x == moved.x / 2.0 - lost.x && error.z == moved.z / 2.0 - lost.z
    ensures error.x == 0.0 && error.z == 0.0 <==> moved == Scale(lost, 2.0)
    ensures lost == ZERO ==> (error.x == 0.0 && error.z == 0.0 <==> moved == ZERO)
  {
  }

  /** The same report, handled `n` times more. */
  function Again(events: seq<Event>, r: Report, ack: u32, n: nat): seq<Event> {
    if n == 0 then events else Again(events, r, ack, n - 1) + [Server(r, ack)]
  }

  function Pow2(n: nat): real {
    if n == 0 then 1.0 else 2.0 * Pow2(n - 1)
  }

  lemma {:induction false} AgainIssuesNothing(events: seq<Event>, r: Report, ack: u32, n: nat)
    requires !Stale(events, ack)
    ensures Issued(Again(events, r, ack, n)) == Issued(events)
    ensures !Stale(Again(events, r, ack, n), ack)
  {
    if n > 0 {
      AgainIssuesNothing(events, r, ack, n - 1);
      assert Again(events, r, ack, n)[..|Again(events, r, ack, n)| - 1] == Again(events, r, ack, n - 1);
    }
  }

  lemma RunAgain(m: Maths, spawn: Report, events: seq<Event>, r: Report, ack: u32, n: nat)
    requires n > 0
    ensures StateAfter(m, spawn, Again(events, r, ack, n))
         == Reconcile(m, StateAfter(m, spawn, Again(events, r, ack, n - 1)), r, ack)
  {
    hide Reconcile;
    assert Again(events, r, ack, n)[..|Again(events, r, ack, n)| - 1] == Again(events, r, ack, n - 1);
  }

  lemma HalfwayTimes(e: real, e': real, moved: real, p: real)
    requires e' == (e + moved) / 2.0
    ensures (e' - moved) * (2.0 * p) == (e - moved) * p
  {
    assert e' - moved == (e - moved) / 2.0;
  }

  /** While reports keep being close and nothing new is acknowledged, smoothing does not converge to the
      right position: the distance to an overshoot by the whole unacknowledged movement halves each time. */
  lemma {:induction false} RepeatedSmoothing(m: Maths, spawn: Report, events: seq<Event>, r: Report, ack: u32, n: nat)
    requires |Issued(events)| <= WRAP && !Stale(events, ack)
    requires forall k: nat :: k < n ==> !Snaps(m, spawn, Again(events, r, ack, k), r)
    ensures var moved := Travel(m, ReportedDrive(r), After(Issued(events), ack + 1));
            var before := Minus(StateAfter(m, spawn, events).renderPosition, Ideal(m, events, r, ack));
            var after := Minus(StateAfter(m, spawn, Again(events, r, ack, n)).renderPosition, Ideal(m, events, r, ack));
            && (after.x - moved.x) * Pow2(n) == before.x - moved.x
            && (after.z - moved.z) * Pow2(n) == before.z - moved.z
  {
    hide StateAfter, Issued, Forgotten, Reconcile, After, Travel, Snaps, Stale, UnpackPosition, ReportedDrive;
    if n > 0 {
      var events' := Again(events, r, ack, n - 1);
      RepeatedSmoothing(m, spawn, events, r, ack, n - 1);
      AgainIssuesNothing(events, r, ack, n - 1);
      RunAgain(m, spawn, events, r, ack, n);
      SmoothingError(m, spawn, events', r, ack);
      var moved := Travel(m, ReportedDrive(r), After(Issued(events), ack + 1));
      var ideal := Ideal(m, events, r, ack);
      var e := Minus(StateAfter(m, spawn, events').renderPosition, ideal);
      var e' := Minus(StateAfter(m, spawn, Again(events, r, ack, n)).renderPosition, ideal);
      HalfwayTimes(e.x, e'.x, moved.x, Pow2(n - 1));
      HalfwayTimes(e.z, e'.z, moved.z, Pow2(n - 1));
    }
  }
}
