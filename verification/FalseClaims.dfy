/** When an acknowledgement claims a packet that was never accepted, in terms of the receiver alone
    (ClientNetworkCore/Session.cpp, `CheckAndRecordReceiveHistory` and `GenerateAckBitfield`). */
module FalseClaims {
  import opened SerialNumber
  import opened ReceiveWindow
  import opened AckField

  function Last(s: seq<u16>): u16
    requires s != []
  {
    s[|s| - 1]
  }

  function Init(s: seq<u16>): seq<u16>
    requires s != []
  {
    s[..|s| - 1]
  }

  /** A fresh receiver accepts these numbers one after the other. */
  ghost predicate AllAccepted(acc: seq<u16>) {
    Accepted(FRESH, acc) == acc
  }

  /** After accepting `acc` the receiver acknowledges `k`, which is not among them. */
  ghost predicate FalseClaim(acc: seq<u16>, k: u16) {
    && acc != [] && AllAccepted(acc) && k !in acc
    && Covers(Last(acc), Encode(RecordAll(FRESH, acc).history, Last(acc)), k)
  }

  /** What may reach the receiver: the numbers up to `n`, and stale ones. */
  predicate Receivable(s: int, n: nat, stale: set<u16>) {
    0 < s < MODULUS && (s <= n || s in stale)
  }

  ghost predicate AllReceivable(acc: seq<u16>, n: nat, stale: set<u16>) {
    forall s :: s in acc ==> Receivable(s, n, stale)
  }

  // ---------------------------------------------------------------------------------------------
  // Acceptance lists
  // ---------------------------------------------------------------------------------------------

  lemma InitAndLast(acc: seq<u16>)
    requires acc != []
    ensures acc == Init(acc) + [Last(acc)]
    ensures RecordAll(FRESH, acc) == Record(RecordAll(FRESH, Init(acc)), Last(acc))
    ensures AllAccepted(acc) <==> AllAccepted(Init(acc)) && Accepts(RecordAll(FRESH, Init(acc)), Last(acc))
  {
    hide Accepts, Record;
    var before := Accepted(FRESH, Init(acc));
    AcceptedIsNoLonger(Init(acc));
    assert acc == Init(acc) + [Last(acc)];
    if Accepts(RecordAll(FRESH, Init(acc)), Last(acc)) {
      assert Accepted(FRESH, acc) == before + [Last(acc)];
      assert Init(before + [Last(acc)]) == before;
    } else {
      assert |Accepted(FRESH, acc)| < |acc|;
    }
  }

  lemma {:induction false} AcceptedIsNoLonger(arrivals: seq<u16>)
    ensures |Accepted(FRESH, arrivals)| <= |arrivals|
  {
    if arrivals != [] { AcceptedIsNoLonger(Init(arrivals)); }
  }

  lemma NothingAccepted()
    ensures Accepted(FRESH, []) == [] && AllAccepted([]) && RecordAll(FRESH, []) == FRESH
  {
  }

  lemma OneMoreAccepted(arrivals: seq<u16>)
    requires arrivals != []
    ensures var w := RecordAll(FRESH, Init(arrivals));
            && RecordAll(FRESH, arrivals) == Record(w, Last(arrivals))
            && Accepted(FRESH, arrivals) ==
                 (if Accepts(w, Last(arrivals)) then Accepted(FRESH, Init(arrivals)) + [Last(arrivals)]
                  else Accepted(FRESH, Init(arrivals)))
    ensures forall s :: s in arrivals <==> s in Init(arrivals) || s == Last(arrivals)
  {
    hide Accepts, Record;
    assert arrivals == Init(arrivals) + [Last(arrivals)];
  }

  lemma AcceptMaybeOne(before: seq<u16>, s: u16)
    requires AllAccepted(Accepted(FRESH, before))
    requires RecordAll(FRESH, Accepted(FRESH, before)) == RecordAll(FRESH, before)
    ensures var w, acc := RecordAll(FRESH, before), Accepted(FRESH, before);
            if Accepts(w, s) then AllAccepted(acc + [s]) && RecordAll(FRESH, acc + [s]) == Record(w, s)
            else Record(w, s) == w
  {
    hide RecordAll, Accepted, IsSeqGreater, Slot;
    var acc := Accepted(FRESH, before);
    assert Init(acc + [s]) == acc;
    InitAndLast(acc + [s]);
  }

  /** Rejected arrivals leave no trace: the accepted ones alone lead to the same window. */
  lemma {:induction false} RejectedLeaveNoTrace(arrivals: seq<u16>)
    ensures AllAccepted(Accepted(FRESH, arrivals))
    ensures RecordAll(FRESH, Accepted(FRESH, arrivals)) == RecordAll(FRESH, arrivals)
    ensures forall s :: s in Accepted(FRESH, arrivals) ==> s in arrivals
  {
    if arrivals != [] {
      hide Accepts, AllAccepted, Accepted, RecordAll, Record;
      RejectedLeaveNoTrace(Init(arrivals));
      AcceptMaybeOne(Init(arrivals), Last(arrivals));
      OneMoreAccepted(arrivals);
    } else {
      NothingAccepted();
    }
  }

  lemma HistoryOf(acc: seq<u16>, k: u16)
    requires AllAccepted(acc)
    ensures Slot(k) in RecordAll(FRESH, acc).history <==> exists a :: a in acc && Slot(a) == Slot(k)
  {
    hide Slot, Accepts, RecordAll;
    AcceptedAtMostOnce(FRESH, acc);
    SlotsMember(acc, Slot(k));
  }

  /** A claim is false exactly if another number with the same history bit had been accepted and the one
      just accepted is at most 32 ahead. */
  lemma FalseClaimIs(acc: seq<u16>, k: u16)
    requires acc != [] && AllAccepted(acc) && k !in acc
    ensures FalseClaim(acc, k) <==>
            && (exists i :: 1 <= i <= 32 && k == Before(Last(acc), i))
            && (exists a :: a in acc && Slot(a) == Slot(k))
  {
    hide Slot, AllAccepted, RecordAll, Before, Covers, Encode;
    EncodeDecodeExact(RecordAll(FRESH, acc).history, Last(acc), k);
    HistoryOf(acc, k);
  }

  // ---------------------------------------------------------------------------------------------
  // Numbers that never wrap
  // ---------------------------------------------------------------------------------------------

  /** From a fresh window these numbers keep their order: the window's edge is never more than the signed
      sixteen-bit range away from them. */
  predicate Straight(s: u16) { s <= 31743 || s > 64512 }

  /** The number itself, or how far it lies below the fresh window's latest number 0. */
  function Signed(s: u16): int { if s <= 31743 then s else s - MODULUS }

  ghost predicate AllStraight(acc: seq<u16>) {
    forall s :: s in acc ==> Straight(s)
  }

  lemma SignedIsCongruent(s: u16)
    ensures Wrap(Signed(s)) == s && Slot(Signed(s)) == Slot(s)
  {
    if s > 31743 { WrapCongruent(Signed(s), s, -1); }
    WrapSmall(s);
    SlotOfWrap(Signed(s));
  }

  /** One acceptance, in true order. */
  lemma StraightAccepts(w: Window, s: u16)
    requires w.latest <= 31743 && Straight(s)
    ensures Accepts(w, s) <==> Signed(s) > w.latest - HISTORY_SIZE && Slot(s) !in w.history
    ensures Accepts(w, s) ==> Record(w, s).latest == if Signed(s) > w.latest then s else w.latest
  {
    hide IsSeqGreater, Slot, Wrap;
    SignedIsCongruent(s);
    WrapSmall(w.latest);
    GreaterIsTrueOrder(Signed(s), w.latest - HISTORY_SIZE);
    GreaterIsTrueOrder(Signed(s), w.latest);
  }

  lemma {:induction false} StraightRun(acc: seq<u16>)
    requires AllAccepted(acc) && AllStraight(acc)
    ensures RecordAll(FRESH, acc).latest <= 31743
    ensures forall a :: a in acc ==> Signed(a) <= RecordAll(FRESH, acc).latest
  {
    hide Accepts, Record, Slot;
    if acc != [] {
      InitAndLast(acc);
      StraightRun(Init(acc));
      StraightAccepts(RecordAll(FRESH, Init(acc)), Last(acc));
    }
  }

  // ---------------------------------------------------------------------------------------------
  // Which stale numbers do harm
  // ---------------------------------------------------------------------------------------------

  /** A stale number lies 1024 ahead of `k`, or 1024 behind it, and the `i`-th number after `k` can come. */
  predicate Exposed(n: nat, stale: set<u16>, k: nat, i: nat) {
    Receivable(k + i, n, stale) && (k + 1024 in stale || k + 64512 in stale)
  }

  /** No number is exposed: something a caller can check by going through the stale numbers. */
  ghost predicate Harmless(n: nat, stale: set<u16>) {
    forall k: nat, i: nat :: 1 <= k <= n && 1 <= i <= 32 ==> !Exposed(n, stale, k, i)
  }

  lemma SameSlotNear(a: int, k: int, edge: int)
    requires Slot(a) == Slot(k) && a != k
    requires 1 <= k <= HISTORY_SIZE && 0 - HISTORY_SIZE < a < k + HISTORY_SIZE + edge && edge <= 32
    ensures a == k + HISTORY_SIZE || a == k - HISTORY_SIZE
  {
    var q := a / HISTORY_SIZE - k / HISTORY_SIZE;
    assert a == k + HISTORY_SIZE * q;
  }

  lemma NeighbourSlotsDiffer(k: int, i: int)
    requires 1 <= i <= 32
    ensures Slot(k + i) != Slot(k)
  {
  }

  lemma BeforeIs(latest: u16, i: nat, k: nat)
    requires 1 <= k <= HISTORY_SIZE && 1 <= i <= 32 && k == Before(latest, i)
    ensures latest == k + i
  {
  }

  /** A false claim of one of the first 1024 numbers takes an exposed number. */
  lemma FalseClaimExposes(acc: seq<u16>, k: u16, n: nat, stale: set<u16>)
    requires n <= HISTORY_SIZE && 1 <= k <= n
    requires forall s :: s in stale ==> Straight(s)
    requires AllReceivable(acc, n, stale) && FalseClaim(acc, k)
    ensures exists i: nat :: 1 <= i <= 32 && Exposed(n, stale, k, i)
  {
    hide Slot, Before, RecordAll, Accepts, AllAccepted, Covers, Encode, Record;
    FalseClaimIs(acc, k);
    var i: nat :| 1 <= i <= 32 && k == Before(Last(acc), i);
    var a :| a in acc && Slot(a) == Slot(k);
    BeforeIs(Last(acc), i, k);
    InitAndLast(acc);
    NeighbourSlotsDiffer(k, i);
    assert a in Init(acc);
    assert forall s :: s in Init(acc) ==> s in acc;
    assert AllStraight(Init(acc));
    StraightRun(Init(acc));
    StraightAccepts(RecordAll(FRESH, Init(acc)), Last(acc));
    SignedIsCongruent(a);
    SameSlotNear(Signed(a), k, i);
    assert Receivable(a, n, stale);
    assert a in stale;
    assert Exposed(n, stale, k, i);
  }

  lemma TwoAcceptances(a: u16, s: u16)
    requires Accepts(FRESH, a) && Accepts(Record(FRESH, a), s)
    ensures AllAccepted([a, s])
  {
    hide Accepts, Record;
    assert Init([a]) == [] && Init([a, s]) == [a];
    InitAndLast([a]);
    InitAndLast([a, s]);
  }

  /** A stale number 1024 ahead of `k` or behind it, then one of the 32 after `k`: a false claim. */
  lemma HarmfulClaims(a: u16, k: u16, i: nat)
    requires 1 <= k <= HISTORY_SIZE && 1 <= i <= 32 && k + i < MODULUS
    requires a == k + 1024 || a == k + 64512
    ensures FalseClaim([a, k + i], k)
  {
    hide Before, Covers, Encode, RecordAll, AllAccepted;
    var s := k + i;
    NeighbourSlotsDiffer(k, i);
    SlotAround(k, a);
    StraightAccepts(FRESH, a);
    StraightAccepts(Record(FRESH, a), s);
    TwoAcceptances(a, s);
    assert s - i == k;
    WrapSmall(k);
    assert Before(s, i) == k by { BeforeOf(s, i, k); }
    assert a in [a, s];
    FalseClaimIs([a, s], k);
  }

  lemma BeforeOf(latest: u16, i: nat, k: u16)
    requires latest == k + i
    ensures Before(latest, i) == k
  {
  }

  lemma SlotAround(k: u16, a: u16)
    requires a == k + 1024 || a == k + 64512
    ensures Slot(a) == Slot(k)
  {
    var q := if a == k + 1024 then 1 else 63;
    assert a == k + HISTORY_SIZE * q;
  }

  /** For every set of stale numbers outside 31744..64512: among the first `n <= 1024` numbers some false
      claim is possible if and only if the set is harmful. */
  lemma NoFalseClaimIffHarmless(n: nat, stale: set<u16>)
    requires n <= 1024 && forall s :: s in stale ==> Straight(s)
    ensures (forall acc: seq<u16>, k: u16 :: 1 <= k <= n && AllReceivable(acc, n, stale) ==> !FalseClaim(acc, k))
       <==> Harmless(n, stale)
  {
    hide FalseClaim, Straight;
    if Harmless(n, stale) {
      forall acc: seq<u16>, k: u16 | 1 <= k <= n && AllReceivable(acc, n, stale) ensures !FalseClaim(acc, k) {
        if FalseClaim(acc, k) { FalseClaimExposes(acc, k, n, stale); }
      }
    } else {
      var k: nat, i: nat :| 1 <= k <= n && 1 <= i <= 32 && Exposed(n, stale, k, i);
      var a: u16 := if k + 1024 in stale then k + 1024 else k + 64512;
      HarmfulClaims(a, k, i);
      assert AllReceivable([a, k + i], n, stale);
    }
  }

  /** Stale numbers in between can carry the window round the wrap: here numbers 1 to 1024 have been
      issued, neither stale number is 1024 away from one of them, and 304 is claimed falsely. */
  lemma ClimbingStaleNumbers()
    ensures Harmless(1024, {30000, 60000})
    ensures AllReceivable([30000, 60000, 305], 1024, {30000, 60000})
    ensures FalseClaim([30000, 60000, 305], 304)
  {
    var acc: seq<u16> := [30000, 60000, 305];
    ClimbersAreFarAway();
    ClimbersAreAccepted();
    BeforeOf(305, 1, 304);
    assert 30000 in acc && Slot(30000) == Slot(304);
    hide Slot, Before, AllAccepted, RecordAll, Covers, Encode, Harmless;
    FalseClaimIs(acc, 304);
  }

  lemma ClimbersAreFarAway()
    ensures Harmless(1024, {30000, 60000})
  {
  }

  lemma ClimbersAreAccepted()
    ensures AllAccepted([30000, 60000, 305])
  {
    hide Accepts, Record, AllAccepted;
    ClimbingWindow();
    NothingAccepted();
    assert Init([30000]) == [];
    InitAndLast([30000]);
    assert Init([30000, 60000]) == [30000];
    InitAndLast([30000, 60000]);
    var acc: seq<u16> := [30000, 60000, 305];
    assert Init(acc) == [30000, 60000];
    InitAndLast(acc);
  }

  lemma ClimbingWindow()
    ensures Accepts(FRESH, 30000) && Record(FRESH, 30000) == Window({304}, 30000)
    ensures Accepts(Window({304}, 30000), 60000) && Record(Window({304}, 30000), 60000) == Window({304, 608}, 60000)
    ensures Accepts(Window({304, 608}, 60000), 305)
  {
  }

  /** A receiver accepts at most 1024 numbers and none twice, so whether a set of numbers allows a false claim
      is a finite question. */
  lemma FalseClaimsAreShort(acc: seq<u16>, k: u16)
    requires FalseClaim(acc, k)
    ensures |acc| <= 1024 && forall i, j :: 0 <= i < j < |acc| ==> acc[i] != acc[j]
  {
    hide Covers, Encode, RecordAll, Accepts;
    AcceptedAtMostOnce(FRESH, acc);
    hide Slot;
  }
}
