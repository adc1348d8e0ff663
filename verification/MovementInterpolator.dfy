/** The snapshot window of a remote actor: sorted insertion, pruning to the last half second, and the
    bracketing search of interpolation (DummyClient/MovementInterpolator.cpp).  Times and coordinates are
    real numbers. */
module MovementInterpolator {

  import opened Options
  import opened Vectors

  datatype Snapshot = Snapshot(timestamp: real, position: Vec3, velocity: Vec3, rotation: Vec3)

  const WINDOW: real := 0.5

  ghost predicate Sorted(s: seq<Snapshot>) {
    forall i, j :: 0 <= i < j < |s| ==> s[i].timestamp <= s[j].timestamp
  }

  // ---------------------------------------------------------------------------------------------
  // The searches
  // ---------------------------------------------------------------------------------------------

  /** `k` is where `std::upper_bound` lands: everything before it is at or before `t`, everything from it
      on is later. */
  ghost predicate IsUpperBound(s: seq<Snapshot>, t: real, k: nat) {
    && k <= |s|
    && (forall i :: 0 <= i < k ==> s[i].timestamp <= t)
    && (forall i :: k <= i < |s| ==> t < s[i].timestamp)
  }

  /** `k` is where `std::lower_bound` (and the pruning `find_if`) lands. */
  ghost predicate IsLowerBound(s: seq<Snapshot>, t: real, k: nat) {
    && k <= |s|
    && (forall i :: 0 <= i < k ==> s[i].timestamp < t)
    && (forall i :: k <= i < |s| ==> t <= s[i].timestamp)
  }

  function UpperBound(s: seq<Snapshot>, t: real): nat {
    if s == [] || t < s[0].timestamp then 0 else 1 + UpperBound(s[1..], t)
  }

  function LowerBound(s: seq<Snapshot>, t: real): nat {
    if s == [] || t <= s[0].timestamp then 0 else 1 + LowerBound(s[1..], t)
  }

  lemma {:induction false} UpperBoundIsUpper(s: seq<Snapshot>, t: real)
    requires Sorted(s)
    ensures IsUpperBound(s, t, UpperBound(s, t))
    ensures forall k: nat :: IsUpperBound(s, t, k) ==> k == UpperBound(s, t)
  {
    if s != [] && t >= s[0].timestamp {
      UpperBoundIsUpper(s[1..], t);
      var n := UpperBound(s[1..], t);
      forall i | 0 <= i < n + 1 ensures s[i].timestamp <= t {
        if i > 0 { assert s[i] == s[1..][i - 1]; }
      }
      forall i | n + 1 <= i < |s| ensures t < s[i].timestamp { assert s[i] == s[1..][i - 1]; }
    }
    forall k: nat | IsUpperBound(s, t, k) ensures k == UpperBound(s, t) {
      var n := UpperBound(s, t);
      var m := if k < n then k else n;
      assert m < |s| ==> s[m].timestamp <= t || t < s[m].timestamp;
    }
  }

  lemma {:induction false} LowerBoundIsLower(s: seq<Snapshot>, t: real)
    requires Sorted(s)
    ensures IsLowerBound(s, t, LowerBound(s, t))
    ensures forall k: nat :: IsLowerBound(s, t, k) ==> k == LowerBound(s, t)
  {
    if s != [] && t > s[0].timestamp {
      LowerBoundIsLower(s[1..], t);
      var n := LowerBound(s[1..], t);
      forall i | 0 <= i < n + 1 ensures s[i].timestamp < t {
        if i > 0 { assert s[i] == s[1..][i - 1]; }
      }
      forall i | n + 1 <= i < |s| ensures t <= s[i].timestamp { assert s[i] == s[1..][i - 1]; }
    }
    forall k: nat | IsLowerBound(s, t, k) ensures k == LowerBound(s, t) {
      var n := LowerBound(s, t);
      var m := if k < n then k else n;
      assert m < |s| ==> s[m].timestamp <= t || t < s[m].timestamp;
    }
  }

  // ---------------------------------------------------------------------------------------------
  // The window
  // ---------------------------------------------------------------------------------------------

  function Insert(s: seq<Snapshot>, snap: Snapshot): seq<Snapshot> {
    var k := UpperBound(s, snap.timestamp);
    if k <= |s| then s[..k] + [snap] + s[k..] else s + [snap]
  }

  function Prune(s: seq<Snapshot>, cutoff: real): seq<Snapshot> {
    var k := LowerBound(s, cutoff);
    if k <= |s| then s[k..] else []
  }

  function AddSnapshot(s: seq<Snapshot>, snap: Snapshot): seq<Snapshot> {
    Prune(Insert(s, snap), snap.timestamp - WINDOW)
  }

  lemma InsertSlices(s: seq<Snapshot>, snap: Snapshot)
    requires Sorted(s)
    ensures var k := UpperBound(s, snap.timestamp);
            k <= |s| && IsUpperBound(s, snap.timestamp, k) && Insert(s, snap) == s[..k] + [snap] + s[k..]
  {
    hide Sorted, IsUpperBound, UpperBound;
    UpperBoundIsUpper(s, snap.timestamp);
    UpperBoundInside(s, snap.timestamp);
  }

  /** What insertion does, position by position. */
  lemma InsertIs(s: seq<Snapshot>, snap: Snapshot)
    requires Sorted(s)
    ensures var k, r := UpperBound(s, snap.timestamp), Insert(s, snap);
            && IsUpperBound(s, snap.timestamp, k) && |r| == |s| + 1
            && r[k] == snap
            && (forall i :: 0 <= i < k ==> r[i] == s[i])
            && (forall i :: k <= i < |s| ==> r[i + 1] == s[i])
            && (forall i :: k < i < |r| ==> r[i] == s[i - 1])
  {
    hide Sorted, IsUpperBound, UpperBound, Insert;
    InsertSlices(s, snap);
  }

  lemma UpperBoundInside(s: seq<Snapshot>, t: real)
    requires IsUpperBound(s, t, UpperBound(s, t))
    ensures UpperBound(s, t) <= |s|
  {
  }

  lemma SplitMultiset(s: seq<Snapshot>, k: nat, snap: Snapshot)
    requires k <= |s|
    ensures multiset(s[..k] + [snap] + s[k..]) == multiset(s) + multiset{snap}
  {
    assert s == s[..k] + s[k..];
  }

  lemma InsertKeepsSorted(s: seq<Snapshot>, snap: Snapshot)
    requires Sorted(s)
    ensures Sorted(Insert(s, snap)) && |Insert(s, snap)| == |s| + 1
    ensures multiset(Insert(s, snap)) == multiset(s) + multiset{snap}
  {
    hide Insert, UpperBound;
    InsertSlices(s, snap);
    InsertIs(s, snap);
    SplitMultiset(s, UpperBound(s, snap.timestamp), snap);
    var k, r := UpperBound(s, snap.timestamp), Insert(s, snap);
    forall i, j | 0 <= i < j < |r| ensures r[i].timestamp <= r[j].timestamp {
      if j < k {
        assert r[i] == s[i] && r[j] == s[j];
      } else if k < i {
        assert r[i] == s[i - 1] && r[j] == s[j - 1];
      } else if i < k && k < j {
        assert r[i] == s[i] && r[j] == s[j - 1];
      } else if i == k {
        assert r[j] == s[j - 1];
      } else {
        assert r[i] == s[i];
      }
    }
  }

  lemma AddKeepsSorted(s: seq<Snapshot>, snap: Snapshot)
    requires Sorted(s)
    ensures Sorted(AddSnapshot(s, snap)) && snap in AddSnapshot(s, snap)
    ensures forall x :: x in AddSnapshot(s, snap) ==> x.timestamp >= snap.timestamp - WINDOW
  {
    InsertKeepsSorted(s, snap);
    UpperBoundIsUpper(s, snap.timestamp);
    var all, cutoff := Insert(s, snap), snap.timestamp - WINDOW;
    LowerBoundIsLower(all, cutoff);
    var at, from := UpperBound(s, snap.timestamp), LowerBound(all, cutoff);
    assert all[at] == snap;
    assert from <= at;
    assert AddSnapshot(s, snap)[at - from] == snap;
  }

  ghost predicate IsSuffix(s: seq<Snapshot>, all: seq<Snapshot>) {
    |s| <= |all| && all[|all| - |s|..] == s
  }

  /** How many of the oldest snapshots the window has dropped. */
  function Dropped(s: seq<Snapshot>, all: seq<Snapshot>): int {
    |all| - |s|
  }

  lemma SuffixSorted(s: seq<Snapshot>, all: seq<Snapshot>)
    requires Sorted(all) && IsSuffix(s, all)
    ensures Sorted(s)
  {
    forall i, j | 0 <= i < j < |s| ensures s[i].timestamp <= s[j].timestamp {
      assert s[i] == all[Dropped(s, all) + i] && s[j] == all[Dropped(s, all) + j];
    }
  }

  lemma LowerBoundInSuffix(s: seq<Snapshot>, all: seq<Snapshot>, t: real)
    requires Sorted(all) && IsSuffix(s, all)
    requires forall i :: 0 <= i < Dropped(s, all) ==> all[i].timestamp < t
    ensures LowerBound(s, t) <= |s| && LowerBound(all, t) == Dropped(s, all) + LowerBound(s, t)
  {
    hide LowerBound, Sorted;
    var p := Dropped(s, all);
    SuffixSorted(s, all);
    LowerBoundIsLower(s, t);
    LowerBoundIsLower(all, t);
    var k := LowerBound(s, t);
    forall i | 0 <= i < p + k ensures all[i].timestamp < t { if i >= p { assert all[i] == s[i - p]; } }
    forall i | p + k <= i < |all| ensures t <= all[i].timestamp { assert all[i] == s[i - p]; }
    assert IsLowerBound(all, t, p + k);
  }

  /** Inserting behind a common front is inserting into what follows it. */
  lemma InsertBehind(front: seq<Snapshot>, s: seq<Snapshot>, k: nat, snap: Snapshot)
    requires k <= |s|
    ensures (front + s)[..|front| + k] + [snap] + (front + s)[|front| + k..]
         == front + (s[..k] + [snap] + s[k..])
  {
    var all := front + s;
    assert all[..|front| + k] == front + s[..k];
    assert all[|front| + k..] == s[k..];
    Regroup(front, s[..k], [snap], s[k..]);
  }

  lemma Regroup<T>(a: seq<T>, b: seq<T>, c: seq<T>, d: seq<T>)
    ensures (a + b) + c + d == a + (b + c + d)
  {
  }

  lemma SuffixOf(front: seq<Snapshot>, s: seq<Snapshot>)
    ensures IsSuffix(s, front + s)
  {
  }

  lemma InsertIntoSuffix(s: seq<Snapshot>, all: seq<Snapshot>, snap: Snapshot)
    requires Sorted(all) && IsSuffix(s, all)
    requires |s| == |all| || all[Dropped(s, all) - 1].timestamp <= snap.timestamp
    ensures IsSuffix(Insert(s, snap), Insert(all, snap))
  {
    hide Insert, UpperBound, Sorted, IsUpperBound;
    var p, k := Dropped(s, all), UpperBound(s, snap.timestamp);
    SuffixSorted(s, all);
    InsertSlices(s, snap);
    InsertSlices(all, snap);
    UpperBoundInSuffix(s, all, snap.timestamp, k);
    FrontAndSuffix(s, all);
    InsertBehind(all[..p], s, k, snap);
    SuffixOf(all[..p], Insert(s, snap));
  }

  lemma FrontAndSuffix(s: seq<Snapshot>, all: seq<Snapshot>)
    requires IsSuffix(s, all)
    ensures all == all[..Dropped(s, all)] + s
  {
  }

  lemma UpperBoundInSuffix(s: seq<Snapshot>, all: seq<Snapshot>, t: real, k: nat)
    requires Sorted(all) && IsSuffix(s, all) && IsUpperBound(s, t, k)
    requires |s| == |all| || all[Dropped(s, all) - 1].timestamp <= t
    ensures UpperBound(all, t) == Dropped(s, all) + k
  {
    hide UpperBound;
    var p := Dropped(s, all);
    UpperBoundIsUpper(all, t);
    forall i | 0 <= i < p + k ensures all[i].timestamp <= t {
      if i >= p {
        assert all[i] == s[i - p];
      } else {
        assert i == p - 1 || all[i].timestamp <= all[p - 1].timestamp;
      }
    }
    forall i | p + k <= i < |all| ensures t < all[i].timestamp { assert all[i] == s[i - p]; }
    assert IsUpperBound(all, t, p + k);
  }

  lemma PruneKeepsSuffix(s: seq<Snapshot>, all: seq<Snapshot>, cutoff: real)
    requires Sorted(s) && IsSuffix(s, all)
    ensures IsSuffix(Prune(s, cutoff), all)
  {
    LowerBoundIsLower(s, cutoff);
  }

  /** A snapshot older than the whole window goes in front and is kept. */
  lemma AddInFront(s: seq<Snapshot>, snap: Snapshot)
    requires Sorted(s) && forall i :: 0 <= i < |s| ==> snap.timestamp < s[i].timestamp
    ensures AddSnapshot(s, snap) == [snap] + s
  {
    hide UpperBound, LowerBound;
    UpperBoundIsUpper(s, snap.timestamp);
    assert IsUpperBound(s, snap.timestamp, 0);
    var inserted := Insert(s, snap);
    assert inserted == [snap] + s;
    InsertKeepsSorted(s, snap);
    LowerBoundIsLower(inserted, snap.timestamp - WINDOW);
    assert IsLowerBound(inserted, snap.timestamp - WINDOW, 0);
  }

  /** A snapshot older than something already dropped lands where the full history has that something. */
  lemma LateSnapshotBreaksSuffix(s: seq<Snapshot>, all: seq<Snapshot>, snap: Snapshot)
    requires Sorted(all) && IsSuffix(s, all) && |s| < |all|
    requires snap.timestamp < all[Dropped(s, all) - 1].timestamp
    ensures !IsSuffix(AddSnapshot(s, snap), Insert(all, snap))
  {
    hide UpperBound, LowerBound, Insert, AddSnapshot;
    var p := Dropped(s, all);
    SuffixSorted(s, all);
    forall i | 0 <= i < |s| ensures snap.timestamp < s[i].timestamp { assert s[i] == all[p + i]; }
    AddInFront(s, snap);
    InsertIs(all, snap);
    assert Insert(all, snap)[p] == all[p - 1];
    FirstDiffers(AddSnapshot(s, snap), Insert(all, snap), p);
  }

  lemma FirstDiffers(s: seq<Snapshot>, all: seq<Snapshot>, p: nat)
    requires s != [] && |all| - |s| == p && all[p] != s[0]
    ensures !IsSuffix(s, all)
  {
    assert all[p..][0] == all[p];
  }

  /** One step: the window stays a suffix of the full history exactly if the new snapshot is no older than
      the newest one already dropped. */
  lemma SuffixKeptIffNotOlderThanDropped(s: seq<Snapshot>, all: seq<Snapshot>, snap: Snapshot)
    requires Sorted(all) && IsSuffix(s, all)
    ensures IsSuffix(AddSnapshot(s, snap), Insert(all, snap)) <==>
            |s| == |all| || all[Dropped(s, all) - 1].timestamp <= snap.timestamp
  {
    hide UpperBound, LowerBound;
    if |s| == |all| || all[Dropped(s, all) - 1].timestamp <= snap.timestamp {
      SuffixSorted(s, all);
      InsertKeepsSorted(s, snap);
      InsertIntoSuffix(s, all, snap);
      PruneKeepsSuffix(Insert(s, snap), Insert(all, snap), snap.timestamp - WINDOW);
    } else {
      LateSnapshotBreaksSuffix(s, all, snap);
    }
  }

  function AddAll(snaps: seq<Snapshot>): seq<Snapshot> {
    if snaps == [] then [] else AddSnapshot(AddAll(snaps[..|snaps| - 1]), snaps[|snaps| - 1])
  }

  /** Whatever the arrival order, the window is sorted. */
  lemma {:induction false} WindowIsSorted(snaps: seq<Snapshot>)
    ensures Sorted(AddAll(snaps))
  {
    if snaps != [] {
      WindowIsSorted(snaps[..|snaps| - 1]);
      AddKeepsSorted(AddAll(snaps[..|snaps| - 1]), snaps[|snaps| - 1]);
    }
  }

  lemma AppendLatest(s: seq<Snapshot>, snap: Snapshot)
    requires Sorted(s) && (s == [] || s[|s| - 1].timestamp <= snap.timestamp)
    ensures Insert(s, snap) == s + [snap]
  {
    UpperBoundIsUpper(s, snap.timestamp);
    assert IsUpperBound(s, snap.timestamp, |s|);
  }

  lemma PruneOfSuffix(s: seq<Snapshot>, all: seq<Snapshot>, cutoff: real)
    requires Sorted(all) && IsSuffix(s, all)
    requires forall i :: 0 <= i < Dropped(s, all) ==> all[i].timestamp < cutoff
    ensures Prune(s, cutoff) == Prune(all, cutoff)
  {
    hide LowerBound;
    LowerBoundInSuffix(s, all, cutoff);
  }

  /** For snapshots that arrive in time order the window is exactly the arrivals of the last half second:
      a suffix of the history in which nothing else is missing. */
  lemma {:induction false} WindowIsRecentHistory(snaps: seq<Snapshot>)
    requires snaps != [] && Sorted(snaps)
    ensures AddAll(snaps) == Prune(snaps, snaps[|snaps| - 1].timestamp - WINDOW)
    ensures IsSuffix(AddAll(snaps), snaps) && AddAll(snaps) != []
  {
    hide UpperBound, LowerBound, Prune, AddSnapshot, Sorted;
    var n := |snaps| - 1;
    var before, snap := snaps[..n], snaps[n];
    assert snaps == before + [snap];
    SortedPrefix(snaps);
    if n > 0 {
      WindowIsRecentHistory(before);
      DroppedAreOld(before, before[n - 1].timestamp - WINDOW);
    }
    AddToRecentHistory(AddAll(before), before, snap);
  }

  /** In numbers: what is kept is the end of the history, and it is kept exactly if it is no more than half a
      second older than the newest. */
  lemma WindowIsLastHalfSecond(snaps: seq<Snapshot>)
    requires snaps != [] && Sorted(snaps)
    ensures var window, last := AddAll(snaps), snaps[|snaps| - 1].timestamp;
            var dropped := |snaps| - |window|;
            && 0 <= dropped < |snaps| && window == snaps[dropped..]
            && (forall i :: 0 <= i < |snaps| ==> (dropped <= i <==> snaps[i].timestamp >= last - 0.5))
  {
    var cutoff := snaps[|snaps| - 1].timestamp - WINDOW;
    WindowIsRecentHistory(snaps);
    LowerBoundIsLower(snaps, cutoff);
    hide LowerBound, AddAll;
    assert |Prune(snaps, cutoff)| == |snaps| - LowerBound(snaps, cutoff);
  }

  lemma SortedPrefix(snaps: seq<Snapshot>)
    requires Sorted(snaps) && snaps != []
    ensures Sorted(snaps[..|snaps| - 1])
    ensures |snaps| > 1 ==> snaps[|snaps| - 2].timestamp <= snaps[|snaps| - 1].timestamp
  {
  }

  lemma DroppedAreOld(all: seq<Snapshot>, cutoff: real)
    requires Sorted(all)
    ensures IsSuffix(Prune(all, cutoff), all)
    ensures forall i :: 0 <= i < Dropped(Prune(all, cutoff), all) ==> all[i].timestamp < cutoff
  {
    hide LowerBound;
    LowerBoundIsLower(all, cutoff);
  }

  lemma AddToRecentHistory(s: seq<Snapshot>, all: seq<Snapshot>, snap: Snapshot)
    requires Sorted(all + [snap]) && IsSuffix(s, all)
    requires forall i :: 0 <= i < Dropped(s, all) ==> all[i].timestamp < snap.timestamp - WINDOW
    ensures AddSnapshot(s, snap) == Prune(all + [snap], snap.timestamp - WINDOW)
    ensures IsSuffix(AddSnapshot(s, snap), all + [snap]) && AddSnapshot(s, snap) != []
  {
    hide UpperBound, LowerBound, Prune, Insert;
    var more := all + [snap];
    assert IsSuffix(s + [snap], more);
    SuffixSorted(s + [snap], more);
    assert Sorted(s) by {
      forall i, j | 0 <= i < j < |s| ensures s[i].timestamp <= s[j].timestamp {
        assert s[i] == (s + [snap])[i] && s[j] == (s + [snap])[j];
      }
    }
    if s != [] {
      assert (s + [snap])[|s| - 1].timestamp <= (s + [snap])[|s|].timestamp;
    }
    AppendLatest(s, snap);
    PruneOfSuffix(s + [snap], more, snap.timestamp - WINDOW);
    DroppedAreOld(more, snap.timestamp - WINDOW);
    AddKeepsSorted(s, snap);
  }

  // ---------------------------------------------------------------------------------------------
  // Interpolation
  // ---------------------------------------------------------------------------------------------

  /** The pair `Interpolate` works on, if there is one. */
  function Bracket(s: seq<Snapshot>, t: real): Option<(Snapshot, Snapshot)> {
    if |s| < 2 then None
    else
      var k := LowerBound(s, t);
      if 0 < k < |s| then Some((s[k - 1], s[k])) else None
  }

  function Weight(prev: Snapshot, next: Snapshot, t: real): real
    requires prev.timestamp < next.timestamp
  {
    (t - prev.timestamp) / (next.timestamp - prev.timestamp)
  }

  /** There is a pair exactly for the times after the first and not after the last snapshot; the pair is
      adjacent and straddles the time, so the weight is defined and lies in (0, 1]. */
  lemma BracketExact(s: seq<Snapshot>, t: real)
    requires Sorted(s)
    ensures Bracket(s, t).Some? <==> |s| > 0 && s[0].timestamp < t <= s[|s| - 1].timestamp
    ensures Bracket(s, t).Some? ==>
      var (prev, next) := Bracket(s, t).value;
      && (exists k :: 0 < k < |s| && prev == s[k - 1] && next == s[k])
      && prev.timestamp < t <= next.timestamp
      && 0.0 < Weight(prev, next, t) <= 1.0
  {
    LowerBoundIsLower(s, t);
    if Bracket(s, t).Some? {
      var (prev, next) := Bracket(s, t).value;
      var a, b := t - prev.timestamp, next.timestamp - prev.timestamp;
      assert 0.0 < a <= b;
      QuotientInUnit(a, b);
    }
  }

  lemma QuotientInUnit(a: real, b: real)
    requires 0.0 < a <= b
    ensures 0.0 < a / b <= 1.0
  {
  }

  /** On any suffix of a sorted history, pruning makes no difference to a render time exactly if nothing
      was dropped, or the time is after the oldest snapshot kept, or it precedes the history altogether. */
  lemma PrunedAgreesIff(s: seq<Snapshot>, all: seq<Snapshot>, t: real)
    requires Sorted(all) && IsSuffix(s, all) && s != []
    ensures Bracket(s, t) == Bracket(all, t) <==>
            |s| == |all| || t > s[0].timestamp || t <= all[0].timestamp
  {
    hide LowerBound, Weight;
    SuffixSorted(s, all);
    BracketExact(s, t);
    BracketExact(all, t);
    assert s[0] == all[Dropped(s, all)] && s[|s| - 1] == all[|all| - 1];
    if |s| == |all| {
      assert s == all;
    } else if t > s[0].timestamp {
      LowerBoundInSuffix(s, all, t);
    }
  }

  /** The pruned window answers every render time it can answer as the unpruned history would. */
  lemma WindowAnswersLikeHistory(snaps: seq<Snapshot>, t: real)
    requires snaps != [] && Sorted(snaps)
    requires AddAll(snaps) != [] && t > AddAll(snaps)[0].timestamp
    ensures Bracket(AddAll(snaps), t) == Bracket(snaps, t)
  {
    WindowIsRecentHistory(snaps);
    PrunedAgreesIff(AddAll(snaps), snaps, t);
  }

  /** Every coordinate of `r` divides the way from `a` to `b` as time `t` divides the time between the two
      snapshots. */
  ghost predicate InProportion(prev: Snapshot, next: Snapshot, a: Vec3, b: Vec3, r: Vec3, t: real) {
    && (r.x - a.x) * (next.timestamp - prev.timestamp) == (b.x - a.x) * (t - prev.timestamp)
    && (r.y - a.y) * (next.timestamp - prev.timestamp) == (b.y - a.y) * (t - prev.timestamp)
    && (r.z - a.z) * (next.timestamp - prev.timestamp) == (b.z - a.z) * (t - prev.timestamp)
  }

  lemma LerpInProportion(prev: Snapshot, next: Snapshot, a: Vec3, b: Vec3, t: real)
    requires prev.timestamp < next.timestamp
    ensures InProportion(prev, next, a, b, Lerp(a, b, Weight(prev, next, t)), t)
  {
    var elapsed, span := t - prev.timestamp, next.timestamp - prev.timestamp;
    LerpDivides(a.x, b.x, elapsed, span);
    LerpDivides(a.y, b.y, elapsed, span);
    LerpDivides(a.z, b.z, elapsed, span);
  }

  // ---------------------------------------------------------------------------------------------
  // The interpolator
  // ---------------------------------------------------------------------------------------------

  class MovementInterpolator {
    var snapshotBuffer: seq<Snapshot>
    var renderPosition: Vec3
    var renderRotation: Vec3

    constructor ()
      ensures snapshotBuffer == []
    {
      snapshotBuffer := [];
      renderPosition := Vec3(0.0, 0.0, 0.0);
      renderRotation := Vec3(0.0, 0.0, 0.0);
    }

    /** `std::upper_bound` by halving. */
    method FindUpper(t: real) returns (k: nat)
      requires Sorted(snapshotBuffer)
      ensures k == UpperBound(snapshotBuffer, t) && k <= |snapshotBuffer|
    {
      var lo, hi := 0, |snapshotBuffer|;
      while lo < hi
        invariant 0 <= lo <= hi <= |snapshotBuffer|
        invariant forall i :: 0 <= i < lo ==> snapshotBuffer[i].timestamp <= t
        invariant forall i :: hi <= i < |snapshotBuffer| ==> t < snapshotBuffer[i].timestamp
      {
        var mid := (lo + hi) / 2;
        if t < snapshotBuffer[mid].timestamp { hi := mid; } else { lo := mid + 1; }
      }
      k := lo;
      UpperBoundIsUpper(snapshotBuffer, t);
      assert IsUpperBound(snapshotBuffer, t, k);
    }

    /** `std::lower_bound` by halving. */
    method FindLower(t: real) returns (k: nat)
      requires Sorted(snapshotBuffer)
      ensures k == LowerBound(snapshotBuffer, t) && k <= |snapshotBuffer|
    {
      var lo, hi := 0, |snapshotBuffer|;
      while lo < hi
        invariant 0 <= lo <= hi <= |snapshotBuffer|
        invariant forall i :: 0 <= i < lo ==> snapshotBuffer[i].timestamp < t
        invariant forall i :: hi <= i < |snapshotBuffer| ==> t <= snapshotBuffer[i].timestamp
      {
        var mid := (lo + hi) / 2;
        if snapshotBuffer[mid].timestamp < t { lo := mid + 1; } else { hi := mid; }
      }
      k := lo;
      LowerBoundIsLower(snapshotBuffer, t);
      assert IsLowerBound(snapshotBuffer, t, k);
    }

    method AddSnapshot(snap: Snapshot)
      requires Sorted(snapshotBuffer)
      modifies this`snapshotBuffer
      ensures snapshotBuffer == Prune(Insert(old(snapshotBuffer), snap), snap.timestamp - WINDOW)
      ensures Sorted(snapshotBuffer)
    {
      AddKeepsSorted(snapshotBuffer, snap);
      InsertKeepsSorted(snapshotBuffer, snap);
      var k := FindUpper(snap.timestamp);
      snapshotBuffer := snapshotBuffer[..k] + [snap] + snapshotBuffer[k..];
      ghost var inserted := snapshotBuffer;
      var cutoff := snap.timestamp - WINDOW;
      var e := 0;
      LowerBoundIsLower(inserted, cutoff);
      while e < |snapshotBuffer| && snapshotBuffer[e].timestamp < cutoff
        invariant 0 <= e <= |snapshotBuffer| && snapshotBuffer == inserted
        invariant forall i :: 0 <= i < e ==> snapshotBuffer[i].timestamp < cutoff
      {
        e := e + 1;
      }
      assert IsLowerBound(inserted, cutoff, e);
      snapshotBuffer := snapshotBuffer[e..];
    }

    /** Renders from the bracketing pair, or reports that there is none and changes nothing. */
    method Interpolate(renderTime: real) returns (ok: bool)
      requires Sorted(snapshotBuffer)
      modifies this`renderPosition, this`renderRotation
      ensures ok == Bracket(snapshotBuffer, renderTime).Some?
      ensures !ok ==> renderPosition == old(renderPosition) && renderRotation == old(renderRotation)
      ensures ok ==>
        var (prev, next) := Bracket(snapshotBuffer, renderTime).value;
        && prev.timestamp < renderTime <= next.timestamp
        && renderPosition == Lerp(prev.position, next.position, Weight(prev, next, renderTime))
        && renderRotation == Lerp(prev.rotation, next.rotation, Weight(prev, next, renderTime))
      ensures ok ==>
        var (prev, next) := Bracket(snapshotBuffer, renderTime).value;
        && InProportion(prev, next, prev.position, next.position, renderPosition, renderTime)
        && InProportion(prev, next, prev.rotation, next.rotation, renderRotation, renderTime)
    {
      BracketExact(snapshotBuffer, renderTime);
      if |snapshotBuffer| < 2 {
        return false;
      }
      var k := FindLower(renderTime);
      if k == 0 || k == |snapshotBuffer| {
        return false;
      }
      var next, prev := snapshotBuffer[k], snapshotBuffer[k - 1];
      var t := (renderTime - prev.timestamp) / (next.timestamp - prev.timestamp);
      renderPosition := Lerp(prev.position, next.position, t);
      renderRotation := Lerp(prev.rotation, next.rotation, t);
      LerpInProportion(prev, next, prev.position, next.position, renderTime);
      LerpInProportion(prev, next, prev.rotation, next.rotation, renderTime);
      return true;
    }
  }
}
