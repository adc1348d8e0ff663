/** The receive side of the reliable UDP session: the 1024-bit history and `_latestSeq`
    (ClientNetworkCore/Session.cpp, `CheckAndRecordReceiveHistory`).

    `Window` is what the sixteen-bit code keeps.  `Ideal` is a receiver over unbounded numbers.
    The first half of the module shows that the code refines the ideal receiver over every run;
    the second half says what the never-cleared history costs. */
module ReceiveWindow {
  import opened SerialNumber

  const HISTORY_SIZE: nat := 1024

  /** The history bit a number uses. */
  function Slot(n: int): int {
    n % HISTORY_SIZE
  }

  // ---------------------------------------------------------------------------------------------
  // The sixteen-bit receiver
  // ---------------------------------------------------------------------------------------------

  /** `history` holds the positions of the set bits of `_receiveHistory`. */
  datatype Window = Window(history: set<int>, latest: u16)

  const FRESH: Window := Window({}, 0)

  ghost predicate ValidWindow(w: Window) {
    forall b :: b in w.history ==> 0 <= b < HISTORY_SIZE
  }

  predicate Accepts(w: Window, s: u16) {
    IsSeqGreater(s, Wrap(w.latest - HISTORY_SIZE)) && Slot(s) !in w.history
  }

  function Record(w: Window, s: u16): Window {
    if Accepts(w, s) then
      Window(w.history + {Slot(s)}, if IsSeqGreater(s, w.latest) then s else w.latest)
    else
      w
  }

  function RecordAll(w: Window, arrivals: seq<u16>): Window {
    if arrivals == [] then w else Record(RecordAll(w, arrivals[..|arrivals| - 1]), arrivals[|arrivals| - 1])
  }

  /** The arrivals that are accepted, in order. */
  function Accepted(w: Window, arrivals: seq<u16>): seq<u16> {
    if arrivals == [] then []
    else
      var before, s := arrivals[..|arrivals| - 1], arrivals[|arrivals| - 1];
      Accepted(w, before) + if Accepts(RecordAll(w, before), s) then [s] else []
  }

  // ---------------------------------------------------------------------------------------------
  // The receiver over unbounded numbers
  // ---------------------------------------------------------------------------------------------

  /** `top` is the largest number accepted so far, or the initial 0. */
  datatype Ideal = Ideal(accepted: set<int>, top: int)

  const IDEAL_FRESH: Ideal := Ideal({}, 0)

  function SlotsOf(numbers: set<int>): set<int> {
    set a | a in numbers :: Slot(a)
  }

  predicate IdealAccepts(m: Ideal, n: int) {
    n > m.top - 1024 && forall a :: a in m.accepted ==> Slot(a) != Slot(n)
  }

  function IdealRecord(m: Ideal, n: int): Ideal {
    if IdealAccepts(m, n) then Ideal(m.accepted + {n}, if n > m.top then n else m.top) else m
  }

  function IdealRecordAll(m: Ideal, arrivals: seq<int>): Ideal {
    if arrivals == [] then m
    else IdealRecord(IdealRecordAll(m, arrivals[..|arrivals| - 1]), arrivals[|arrivals| - 1])
  }

  /** The numbers that sixteen-bit serial arithmetic can tell apart around the window's lower edge. */
  predicate InHorizon(m: Ideal, n: int) {
    -32768 <= n - (m.top - 1024) <= 32767
  }

  /** The number in the horizon that travels as `s`. */
  function Lift(m: Ideal, s: u16): int {
    m.top - 1024 + ToInt16(s - (m.top - 1024))
  }

  function LiftAll(m: Ideal, arrivals: seq<u16>): seq<int>
    ensures |LiftAll(m, arrivals)| == |arrivals|
  {
    if arrivals == [] then []
    else
      var before := LiftAll(m, arrivals[..|arrivals| - 1]);
      before + [Lift(IdealRecordAll(m, before), arrivals[|arrivals| - 1])]
  }

  /** `Lift` is inverse to the wire image: it picks a number in the horizon, and the only one. */
  lemma LiftInvertsWrap(m: Ideal, s: u16, n: int)
    ensures InHorizon(m, Lift(m, s)) && Wrap(Lift(m, s)) == s
    ensures InHorizon(m, n) && Wrap(n) == s ==> n == Lift(m, s)
  {
    var edge := m.top - HISTORY_SIZE;
    var d := s - edge;
    assert Lift(m, s) == s - MODULUS * (d / MODULUS) || Lift(m, s) == s - MODULUS * (d / MODULUS + 1);
    if InHorizon(m, n) && Wrap(n) == s {
      assert (n - edge) % MODULUS == d % MODULUS by {
        assert n - edge == MODULUS * (n / MODULUS) + d;
      }
    }
  }

  // ---------------------------------------------------------------------------------------------
  // Refinement
  // ---------------------------------------------------------------------------------------------

  ghost predicate Refines(w: Window, m: Ideal) {
    w.latest == Wrap(m.top) && w.history == SlotsOf(m.accepted)
  }

  /** `top` really is the maximum of the initial value and everything accepted. */
  ghost predicate TopIsMaximum(m: Ideal) {
    && (m.top == 0 || m.top in m.accepted)
    && m.top >= 0
    && forall a :: a in m.accepted ==> a <= m.top
  }

  lemma SlotOfWrap(n: int)
    ensures Slot(Wrap(n)) == Slot(n)
  {
    assert n == HISTORY_SIZE * (64 * (n / MODULUS)) + Wrap(n);
  }

  lemma WindowTestIsExact(m: Ideal, n: int)
    requires InHorizon(m, n)
    ensures IsSeqGreater(Wrap(n), Wrap(Wrap(m.top) - HISTORY_SIZE)) <==> n > m.top - HISTORY_SIZE
    ensures n > m.top - HISTORY_SIZE ==> (IsSeqGreater(Wrap(n), Wrap(m.top)) <==> n > m.top)
  {
    hide IsSeqGreater, Wrap;
    WrapDifference(m.top, HISTORY_SIZE);
    GreaterIsTrueOrder(n, m.top - HISTORY_SIZE);
    if n > m.top - HISTORY_SIZE { GreaterIsTrueOrder(n, m.top); }
  }

  /** One arrival: for a number in the horizon the sixteen-bit code and the unbounded receiver take
      the same decision and stay related. */
  lemma RecordRefines(w: Window, m: Ideal, n: int)
    requires Refines(w, m) && InHorizon(m, n)
    ensures Accepts(w, Wrap(n)) <==> IdealAccepts(m, n)
    ensures Refines(Record(w, Wrap(n)), IdealRecord(m, n))
  {
    hide IsSeqGreater, Slot, Wrap;
    WindowTestIsExact(m, n);
    SlotOfWrap(n);
    assert Slot(n) in w.history <==> exists a :: a in m.accepted && Slot(a) == Slot(n);
    assert SlotsOf(m.accepted + {n}) == SlotsOf(m.accepted) + {Slot(n)};
  }

  /** For every sequence of arrivals: lift each one into the horizon, and the sixteen-bit receiver is
      the unbounded receiver seen through the wire.  In particular `_latestSeq` is always the true
      maximum modulo 65536, across any number of wraps. */
  lemma {:induction false} RunRefines(arrivals: seq<u16>)
    ensures Refines(RecordAll(FRESH, arrivals), IdealRecordAll(IDEAL_FRESH, LiftAll(IDEAL_FRESH, arrivals)))
    ensures TopIsMaximum(IdealRecordAll(IDEAL_FRESH, LiftAll(IDEAL_FRESH, arrivals)))
  {
    if arrivals != [] {
      var before, s := arrivals[..|arrivals| - 1], arrivals[|arrivals| - 1];
      RunRefines(before);
      var lifted := LiftAll(IDEAL_FRESH, before);
      var m := IdealRecordAll(IDEAL_FRESH, lifted);
      var n := Lift(m, s);
      LiftInvertsWrap(m, s, n);
      RecordRefines(RecordAll(FRESH, before), m, n);
      var all := LiftAll(IDEAL_FRESH, arrivals);
      assert all[..|all| - 1] == lifted && all[|all| - 1] == n;
    }
  }

  /** Every arrival is, when it arrives, within the horizon of the receiver's maximum. */
  ghost predicate StaysInHorizon(numbers: seq<int>) {
    forall i :: 0 <= i < |numbers| ==> InHorizon(IdealRecordAll(IDEAL_FRESH, numbers[..i]), numbers[i])
  }

  function WireImage(numbers: seq<int>): seq<u16> {
    seq(|numbers|, i requires 0 <= i < |numbers| => Wrap(numbers[i]))
  }

  lemma PrefixStaysInHorizon(numbers: seq<int>, k: nat)
    requires StaysInHorizon(numbers) && k <= |numbers|
    ensures StaysInHorizon(numbers[..k])
    ensures WireImage(numbers)[..k] == WireImage(numbers[..k])
  {
    forall i | 0 <= i < k ensures InHorizon(IdealRecordAll(IDEAL_FRESH, numbers[..k][..i]), numbers[..k][i]) {
      assert numbers[..k][..i] == numbers[..i];
    }
  }

  lemma LastIsInHorizon(numbers: seq<int>, k: nat)
    requires StaysInHorizon(numbers) && |numbers| == k + 1
    ensures InHorizon(IdealRecordAll(IDEAL_FRESH, numbers[..k]), numbers[k])
  {
  }

  lemma {:induction false} LiftAppends(before: seq<u16>, s: u16)
    ensures LiftAll(IDEAL_FRESH, before + [s])
         == LiftAll(IDEAL_FRESH, before) + [Lift(IdealRecordAll(IDEAL_FRESH, LiftAll(IDEAL_FRESH, before)), s)]
  {
    hide Lift, IdealRecordAll;
    assert (before + [s])[..|before|] == before;
  }

  lemma WireImageAppends(numbers: seq<int>, k: nat)
    requires |numbers| == k + 1
    ensures WireImage(numbers) == WireImage(numbers[..k]) + [Wrap(numbers[k])]
    ensures numbers == numbers[..k] + [numbers[k]]
  {
    hide Wrap;
  }

  lemma {:induction false} LiftRecoversTrueNumbers(numbers: seq<int>)
    requires StaysInHorizon(numbers)
    ensures LiftAll(IDEAL_FRESH, WireImage(numbers)) == numbers
  {
    hide StaysInHorizon;
    if numbers == [] {
      assert WireImage(numbers) == [];
    } else {
      hide LiftAll, WireImage, InHorizon, Lift, Wrap, IdealRecordAll;
      var k := |numbers| - 1;
      PrefixStaysInHorizon(numbers, k);
      LastIsInHorizon(numbers, k);
      LiftRecoversTrueNumbers(numbers[..k]);
      WireImageAppends(numbers, k);
      LiftAppends(WireImage(numbers[..k]), Wrap(numbers[k]));
      LiftInvertsWrap(IdealRecordAll(IDEAL_FRESH, numbers[..k]), Wrap(numbers[k]), numbers[k]);
    }
  }

  /** When a peer numbers its packets without bound and no packet strays out of the horizon, the
      receiver recovers the peer's own numbers: what it accepts is what the unbounded receiver
      accepts on them. */
  lemma RunRecoversTrueNumbers(numbers: seq<int>)
    requires StaysInHorizon(numbers)
    ensures LiftAll(IDEAL_FRESH, WireImage(numbers)) == numbers
    ensures Refines(RecordAll(FRESH, WireImage(numbers)), IdealRecordAll(IDEAL_FRESH, numbers))
  {
    LiftRecoversTrueNumbers(numbers);
    RunRefines(WireImage(numbers));
  }

  // ---------------------------------------------------------------------------------------------
  // What the never-cleared history implies
  // ---------------------------------------------------------------------------------------------

  function Slots(accepted: seq<u16>): set<int> {
    if accepted == [] then {}
    else
      var k := |accepted| - 1;
      Slots(accepted[..k]) + {Slot(accepted[k])}
  }

  lemma {:induction false} SlotsMember(accepted: seq<u16>, b: int)
    ensures b in Slots(accepted) <==> exists a :: a in accepted && Slot(a) == b
  {
    if accepted != [] {
      var k := |accepted| - 1;
      SlotsMember(accepted[..k], b);
      assert accepted == accepted[..k] + [accepted[k]];
    }
  }

  ghost predicate DistinctSlots(accepted: seq<u16>) {
    forall i, j :: 0 <= i < j < |accepted| ==> Slot(accepted[i]) != Slot(accepted[j])
  }

  /** What a run that accepted `acc` has done to the history. */
  ghost predicate OneBitEach(w: Window, acc: seq<u16>, after: Window) {
    && ValidWindow(after)
    && after.history == w.history + Slots(acc)
    && DistinctSlots(acc)
    && |after.history| == |w.history| + |acc|
  }

  lemma {:induction false} OneMoreBit(w: Window, acc: seq<u16>, mid: Window, s: u16)
    requires OneBitEach(w, acc, mid) && Accepts(mid, s)
    ensures OneBitEach(w, acc + [s], Record(mid, s))
  {
    var acc' := acc + [s];
    assert acc'[..|acc|] == acc;
    SlotsMember(acc, Slot(s));
    assert Slots(acc') == Slots(acc) + {Slot(s)};
    assert Record(mid, s).history == mid.history + {Slot(s)};
  }

  lemma OneMoreArrival(w: Window, acc: seq<u16>, mid: Window, s: u16)
    requires OneBitEach(w, acc, mid)
    ensures OneBitEach(w, if Accepts(mid, s) then acc + [s] else acc, Record(mid, s))
  {
    if Accepts(mid, s) { OneMoreBit(w, acc, mid, s); }
  }

  /** Over any run from any state the set bits are the old ones plus one per acceptance, all distinct.
      So a number is accepted, and hence acknowledged, at most once; no two accepted numbers even
      agree modulo 1024; and no run accepts more than 1024 packets. */
  lemma {:induction false} AcceptedAtMostOnce(w: Window, arrivals: seq<u16>)
    requires ValidWindow(w)
    ensures OneBitEach(w, Accepted(w, arrivals), RecordAll(w, arrivals))
    ensures |w.history| + |Accepted(w, arrivals)| <= 1024
  {
    hide IsSeqGreater, Slot, Wrap;
    if arrivals == [] {
      assert Slots([]) == {};
    } else {
      var before, s := arrivals[..|arrivals| - 1], arrivals[|arrivals| - 1];
      AcceptedAtMostOnce(w, before);
      OneMoreArrival(w, Accepted(w, before), RecordAll(w, before), s);
      assert Accepted(w, before) + [] == Accepted(w, before);
    }
    BitsAreFew(RecordAll(w, arrivals));
  }

  function Positions(n: nat): (r: set<int>)
    ensures forall b :: b in r <==> 0 <= b < n
    ensures |r| == n
  {
    if n == 0 then {} else Positions(n - 1) + {n - 1}
  }

  lemma SubsetIsSmaller(a: set<int>, b: set<int>)
    requires a <= b
    ensures |a| <= |b|
    ensures |a| == |b| ==> a == b
  {
    assert b == a + (b - a);
    if a != b { assert b - a != {}; }
  }

  lemma BitsAreFew(w: Window)
    requires ValidWindow(w)
    ensures |w.history| <= HISTORY_SIZE
    ensures |w.history| == HISTORY_SIZE ==> w.history == Positions(HISTORY_SIZE)
  {
    SubsetIsSmaller(w.history, Positions(HISTORY_SIZE));
  }

  /** A number inside the window is accepted exactly when no accepted number shares its residue. */
  lemma {:induction false} FreshAcceptedIffNotAliased(arrivals: seq<u16>, s: u16)
    requires IsSeqGreater(s, Wrap(RecordAll(FRESH, arrivals).latest - 1024))
    ensures Accepts(RecordAll(FRESH, arrivals), s) <==>
            forall a :: a in Accepted(FRESH, arrivals) ==> a % 1024 != s % 1024
  {
    assert forall a :: a in Accepted(FRESH, arrivals) ==> (a % 1024 == s % 1024 <==> Slot(a) == Slot(s));
    hide IsSeqGreater, Slot, Wrap;
    AcceptedAtMostOnce(FRESH, arrivals);
    SlotsMember(Accepted(FRESH, arrivals), Slot(s));
  }

  lemma FullWindowRejects(w: Window, s: u16)
    requires ValidWindow(w) && |w.history| == 1024
    ensures !Accepts(w, s)
  {
    BitsAreFew(w);
    assert Slot(s) in Positions(HISTORY_SIZE);
  }

  lemma {:induction false} FullWindowStays(w: Window, arrivals: seq<u16>)
    requires ValidWindow(w) && |w.history| == 1024
    ensures RecordAll(w, arrivals) == w && Accepted(w, arrivals) == []
  {
    if arrivals != [] {
      FullWindowStays(w, arrivals[..|arrivals| - 1]);
      FullWindowRejects(w, arrivals[|arrivals| - 1]);
    }
  }

  /** Runs compose. */
  lemma {:induction false} RunsCompose(w: Window, first: seq<u16>, later: seq<u16>)
    ensures RecordAll(w, first + later) == RecordAll(RecordAll(w, first), later)
    ensures Accepted(w, first + later) == Accepted(w, first) + Accepted(RecordAll(w, first), later)
  {
    hide IsSeqGreater, Slot, Wrap;
    if later == [] {
      assert first + later == first;
    } else {
      var k := |later| - 1;
      RunsCompose(w, first, later[..k]);
      assert (first + later)[..|first + later| - 1] == first + later[..k];
    }
  }

  /** Once 1024 packets have been accepted the receiver never accepts again, whatever arrives. */
  lemma DeafAfter1024(first: seq<u16>, later: seq<u16>)
    requires |Accepted(FRESH, first)| == 1024
    ensures Accepted(FRESH, first + later) == Accepted(FRESH, first)
    ensures RecordAll(FRESH, first + later) == RecordAll(FRESH, first)
  {
    hide IsSeqGreater, Slot, Wrap;
    AcceptedAtMostOnce(FRESH, first);
    FullWindowStays(RecordAll(FRESH, first), later);
    RunsCompose(FRESH, first, later);
  }

  /** The wire numbers 1, 2, ..., n of a peer that loses and reorders nothing. */
  function InOrder(n: nat): seq<u16> {
    seq(n, i requires 0 <= i => Wrap(i + 1))
  }

  lemma {:induction false} InOrderIsFresh(n: nat, a: u16)
    requires 0 < n <= HISTORY_SIZE && a in InOrder(n - 1)
    ensures Slot(a) != Slot(n)
  {
    assert 1 <= a < n;
  }

  lemma {:induction false} InOrderNext(n: nat, w: Window)
    requires 0 < n <= HISTORY_SIZE
    requires w.latest == n - 1 && w.history == Slots(InOrder(n - 1))
    ensures Accepts(w, n) && Record(w, n).latest == n
  {
    hide IsSeqGreater, Slot, Wrap, InOrder, Slots;
    SlotsMember(InOrder(n - 1), Slot(n));
    forall a | a in InOrder(n - 1) ensures Slot(a) != Slot(n) { InOrderIsFresh(n, a); }
    WrapSmall(n);
    WrapSmall(n - 1);
    GreaterIsTrueOrder(n, n - 1 - HISTORY_SIZE);
    GreaterIsTrueOrder(n, n - 1);
  }

  lemma InOrderAppends(n: nat)
    requires 0 < n < MODULUS
    ensures InOrder(n) == InOrder(n - 1) + [n] && |InOrder(n)| == n && InOrder(n)[..n - 1] == InOrder(n - 1)
  {
    WrapSmall(n);
    hide Wrap;
    assert InOrder(n) == InOrder(n - 1) + [n];
  }

  lemma NothingInOrder()
    ensures Accepted(FRESH, InOrder(0)) == InOrder(0) && RecordAll(FRESH, InOrder(0)).latest == 0
  {
  }

  lemma {:induction false} InOrderAllAccepted(n: nat)
    requires n <= HISTORY_SIZE
    ensures Accepted(FRESH, InOrder(n)) == InOrder(n)
    ensures RecordAll(FRESH, InOrder(n)).latest == n
  {
    hide InOrder, Accepts, Record;
    if n == 0 {
      NothingInOrder();
    } else {
      InOrderAllAccepted(n - 1);
      InOrderAppends(n);
      InOrderRun(n - 1);
      InOrderNext(n, RecordAll(FRESH, InOrder(n - 1)));
    }
  }

  lemma {:induction false} InOrderRun(n: nat)
    requires Accepted(FRESH, InOrder(n)) == InOrder(n)
    ensures RecordAll(FRESH, InOrder(n)).history == Slots(InOrder(n))
  {
    hide IsSeqGreater, Slot, Wrap;
    AcceptedAtMostOnce(FRESH, InOrder(n));
  }

  /** A loss-free, in-order peer is acknowledged for exactly its first 1024 packets. */
  lemma InOrderPeer(n: nat)
    ensures Accepted(FRESH, InOrder(n)) == InOrder(if n < 1024 then n else 1024)
  {
    if n <= HISTORY_SIZE {
      InOrderAllAccepted(n);
    } else {
      InOrderAllAccepted(HISTORY_SIZE);
      var rest := InOrder(n)[HISTORY_SIZE..];
      assert InOrder(n) == InOrder(HISTORY_SIZE) + rest;
      DeafAfter1024(InOrder(HISTORY_SIZE), rest);
    }
  }
}
