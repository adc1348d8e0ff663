/** Smoothing over many different reports, with inputs in between: what becomes of the error when the server and
    the player agree on everything but the delay (DummyClient/Player.cpp). */
module SmoothingRounds {

  import opened Options
  import opened Vectors
  import opened TransformCompressor
  import opened Prediction
  import opened PredictionRuns
  import opened PredictionErrors

  /** A report, and what the player does until the next one. */
  datatype Round = Round(report: Report, ack: u32, rest: seq<Event>)

  function Last(rounds: seq<Round>): Round
    requires rounds != []
  {
    rounds[|rounds| - 1]
  }

  function Init(rounds: seq<Round>): seq<Round>
    requires rounds != []
  {
    rounds[..|rounds| - 1]
  }

  function Through(events: seq<Event>, rounds: seq<Round>): seq<Event> {
    if rounds == [] then events
    else Through(events, Init(rounds)) + [Server(Last(rounds).report, Last(rounds).ack)] + Last(rounds).rest
  }

  /** How far the player is drawn from where report `r` says all inputs lead. */
  function Off(m: Maths, spawn: Report, events: seq<Event>, r: Report, ack: u32): Vec3 {
    Minus(StateAfter(m, spawn, events).renderPosition, Ideal(m, events, r, ack))
  }

  /** The movement the report has not seen. */
  function Unseen(m: Maths, events: seq<Event>, r: Report, ack: u32): Vec3 {
    Travel(m, ReportedDrive(r), After(Issued(events), ack + 1))
  }

  /** The report comes between two `Update`s, is close and in order, and every input made after it is applied. */
  ghost predicate Calm(m: Maths, spawn: Report, events: seq<Event>, round: Round) {
    && |Issued(events)| <= WRAP && round.ack < |Issued(events)|
    && Run(m, spawn, events).hand.None?
    && !Snaps(m, spawn, events, round.report) && !Stale(events, round.ack)
    && NoReports(round.rest)
    && Orderly(m, spawn, events + [Server(round.report, round.ack)] + round.rest)
    && Run(m, spawn, events + [Server(round.report, round.ack)] + round.rest).hand.None?
  }

  /** The next report says the same about where all inputs lead. */
  ghost predicate Agrees(m: Maths, events: seq<Event>, before: Round, round: Round) {
    Ideal(m, events, before.report, before.ack) == Ideal(m, events, round.report, round.ack)
  }

  ghost predicate AllCalm(m: Maths, spawn: Report, events: seq<Event>, rounds: seq<Round>) {
    rounds != [] ==>
      && AllCalm(m, spawn, events, Init(rounds))
      && Calm(m, spawn, Through(events, Init(rounds)), Last(rounds))
      && (|rounds| > 1 ==> Agrees(m, Through(events, Init(rounds)), Last(Init(rounds)), Last(rounds)))
  }

  /** One round takes the error half way to the movement unseen, whatever inputs follow. */
  lemma CalmRound(m: Maths, spawn: Report, events: seq<Event>, round: Round)
    requires Calm(m, spawn, events, round)
    ensures var before := Off(m, spawn, events, round.report, round.ack);
            var unseen := Unseen(m, events, round.report, round.ack);
            var after := Off(m, spawn, events + [Server(round.report, round.ack)] + round.rest,
                             round.report, round.ack);
            && after.x == (before.x + unseen.x) / 2.0
            && after.z == (before.z + unseen.z) / 2.0
  {
    hide Run, StateAfter, Issued, Ideal, Error, Travel, After, ReportedDrive, Orderly, Snaps, Stale, NoReports,
         Skipped, Owed;
    SmoothingError(m, spawn, events, round.report, round.ack);
    ErrorUnchangedIff(m, spawn, events, round.report, round.ack, round.rest);
    NothingOwed(m, ReportedDrive(round.report), Run(m, spawn, events).hand);
  }

  lemma NothingOwed(m: Maths, d: Drive, hand: Option<Input>)
    requires hand.None?
    ensures Owed(m, d, hand) == ZERO
  {
  }

  /** Half way to each of `goals`, one after the other. */
  function Halving(start: real, goals: seq<real>): real {
    if goals == [] then start else (Halving(start, goals[..|goals| - 1]) + goals[|goals| - 1]) / 2.0
  }

  /** The coordinates of the movement unseen at each report. */
  function UnseenX(m: Maths, events: seq<Event>, rounds: seq<Round>): (r: seq<real>)
    ensures |r| == |rounds|
  {
    if rounds == [] then []
    else
      UnseenX(m, events, Init(rounds))
      + [Unseen(m, Through(events, Init(rounds)), Last(rounds).report, Last(rounds).ack).x]
  }

  function UnseenZ(m: Maths, events: seq<Event>, rounds: seq<Round>): (r: seq<real>)
    ensures |r| == |rounds|
  {
    if rounds == [] then []
    else
      UnseenZ(m, events, Init(rounds))
      + [Unseen(m, Through(events, Init(rounds)), Last(rounds).report, Last(rounds).ack).z]
  }

  /** Over any number of different close reports that agree with each other, with any inputs in between: the
      error goes half way to the movement unseen at each report in turn. */
  lemma {:induction false} ErrorFollowsUnseen(m: Maths, spawn: Report, events: seq<Event>, rounds: seq<Round>)
    requires rounds != [] && AllCalm(m, spawn, events, rounds)
    ensures var before := Off(m, spawn, events, rounds[0].report, rounds[0].ack);
            var after := Off(m, spawn, Through(events, rounds), Last(rounds).report, Last(rounds).ack);
            && after.x == Halving(before.x, UnseenX(m, events, rounds))
            && after.z == Halving(before.z, UnseenZ(m, events, rounds))
  {
    hide Calm, Agrees, Unseen, Off;
    var init, round := Init(rounds), Last(rounds);
    CalmRound(m, spawn, Through(events, init), round);
    if init == [] {
      OneGoal(m, events, rounds);
    } else {
      ErrorFollowsUnseen(m, spawn, events, init);
      SameOff(m, spawn, Through(events, init), Last(init), round);
      assert UnseenX(m, events, rounds)[..|init|] == UnseenX(m, events, init);
      assert UnseenZ(m, events, rounds)[..|init|] == UnseenZ(m, events, init);
    }
  }

  lemma OneGoal(m: Maths, events: seq<Event>, rounds: seq<Round>)
    requires |rounds| == 1
    ensures Through(events, Init(rounds)) == events
    ensures forall e: real :: Halving(e, UnseenX(m, events, rounds))
                           == (e + Unseen(m, events, rounds[0].report, rounds[0].ack).x) / 2.0
    ensures forall e: real :: Halving(e, UnseenZ(m, events, rounds))
                           == (e + Unseen(m, events, rounds[0].report, rounds[0].ack).z) / 2.0
  {
    hide Unseen;
    assert UnseenX(m, events, rounds)[..0] == [] && UnseenZ(m, events, rounds)[..0] == [];
  }

  lemma SameOff(m: Maths, spawn: Report, events: seq<Event>, before: Round, round: Round)
    requires Agrees(m, events, before, round)
    ensures Off(m, spawn, events, before.report, before.ack) == Off(m, spawn, events, round.report, round.ack)
  {
  }

  // ---------------------------------------------------------------------------------------------
  // What the error comes to
  // ---------------------------------------------------------------------------------------------

  lemma HalvingBound(e: real, e': real, goal: real, bound: real, p: real)
    requires e' == (e + goal) / 2.0 && goal >= bound && p >= 1.0
    ensures (e' - bound) * (2.0 * p) >= (e - bound) * p
  {
    var d := (goal - bound) * p;
    assert d >= 0.0 by { ProductNonNegative(goal - bound, p); }
    HalvingTimes(e, e', goal, bound, p);
  }

  lemma HalvingTimes(e: real, e': real, goal: real, bound: real, p: real)
    requires e' == (e + goal) / 2.0
    ensures (e' - bound) * (2.0 * p) == (e - bound) * p + (goal - bound) * p
  {
    assert 2.0 * (e' - bound) == (e - bound) + (goal - bound);
    assert (e' - bound) * (2.0 * p) == (2.0 * (e' - bound)) * p;
  }

  lemma {:induction false} PowersGrow(n: nat)
    ensures Pow2(n) >= 1.0
  {
    if n > 0 { PowersGrow(n - 1); }
  }

  /** If every report misses at least a movement of `bound`, the error is driven up to `bound`: what it lacks of
      that halves with each report. */
  lemma {:induction false} ErrorReachesLeastUnseen(start: real, goals: seq<real>, bound: real)
    requires forall i :: 0 <= i < |goals| ==> goals[i] >= bound
    ensures (Halving(start, goals) - bound) * Pow2(|goals|) >= start - bound
  {
    if goals != [] {
      var n := |goals| - 1;
      ErrorReachesLeastUnseen(start, goals[..n], bound);
      PowersGrow(n);
      HalvingBound(Halving(start, goals[..n]), Halving(start, goals), goals[n], bound, Pow2(n));
    }
  }
}
