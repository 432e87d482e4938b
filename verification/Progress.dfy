/** The progress values that spawning and deleting a lab report. */
module Progress {

  /** `progress + int((end - start) / 2)` */
  function Halfway(start: nat, end: nat): nat
    requires start <= end
  {
    start + ((end - start) as real / 2.0).Floor
  }

  /** `int(progress + (75 - progress) / 3)` */
  function Closer(progress: nat): nat
    requires progress <= 75
  {
    (progress as real + (75 - progress) as real / 3.0).Floor
  }

  /** The value after `n` pod events. */
  function Watched(n: nat): (p: nat)
    ensures 35 <= p <= 73
  {
    if n == 0 then 35 else Closer(Watched(n - 1))
  }

  ghost predicate NeverDecreases(values: seq<nat>) {
    forall i, j | 0 <= i < j < |values| :: values[i] <= values[j]
  }

  /** The values `_delete_lab` reports. */
  method DeleteLab(start: nat, end: nat) returns (values: seq<nat>)
    requires start <= end
    ensures |values| == 3 && values[0] == start && values[1] == Halfway(start, end) && values[2] == end && NeverDecreases(values)
  {
    var progress := start;
    values := [progress];
    progress := Halfway(start, end);
    values := values + [progress];
    progress := end;
    values := values + [progress];
  }

  lemma {:induction false} WatchedRises(n: nat)
    ensures Watched(n) < Watched(n + 1) || Watched(n) == Watched(n + 1) == 73
  {
    assert Watched(n + 1) == Closer(Watched(n));
  }

  lemma {:induction false} WatchedOrdered(i: nat, j: nat)
    requires i < j
    ensures Watched(i) < Watched(j) || Watched(i) == Watched(j) == 73
  {
    WatchedRises(j - 1);
    if i < j - 1 {
      WatchedOrdered(i, j - 1);
    }
  }

  /** After eight pod events the value is 73, and there it stays. */
  lemma WatchedSettles(n: nat)
    ensures Watched(n) == 73 <==> n >= 8
    ensures n < 8 ==> Watched(n) == [35, 48, 57, 63, 67, 69, 71, 72][n]
  {
    assert Watched(0) == 35 && Watched(1) == 48 && Watched(2) == 57 && Watched(3) == 63;
    assert Watched(4) == 67 && Watched(5) == 69 && Watched(6) == 71 && Watched(7) == 72 && Watched(8) == 73;
    if n > 8 {
      WatchedOrdered(8, n);
    }
  }

  lemma WatchedStarts()
    ensures Watched(0) == 35
  {
  }

  lemma WatchedNext(n: nat)
    ensures Watched(n + 1) == Closer(Watched(n))
  {
  }

  /** The values `_watch_spawn_events` reports for a number of pod events. */
  method WatchSpawnEvents(events: nat) returns (values: seq<nat>)
    ensures |values| == events && forall k | 0 <= k < events :: values[k] == Watched(k)
    ensures forall k | 0 <= k < events :: values[k] == if k < 8 then [35, 48, 57, 63, 67, 69, 71, 72][k] else 73
    ensures NeverDecreases(values) && forall v | v in values :: 35 <= v <= 73
    ensures forall i, j | 0 <= i < j < |values| && values[i] < 73 :: values[i] < values[j]
  {
    hide Watched, Closer;
    values := [];
    var progress: nat := 35;
    assert progress == Watched(0) by {
      WatchedStarts();
    }
    for n := 0 to events
      invariant |values| == n && progress == Watched(n)
      invariant forall k | 0 <= k < n :: values[k] == Watched(k)
    {
      WatchedNext(n);
      values := values + [progress];
      progress := Closer(progress);
    }
    forall i, j | 0 <= i < j < |values| ensures values[i] < values[j] || values[i] == values[j] == 73 {
      WatchedOrdered(i, j);
    }
    forall k | 0 <= k < events ensures values[k] == if k < 8 then [35, 48, 57, 63, 67, 69, 71, 72][k] else 73 {
      WatchedSettles(k);
    }
  }

  /** All the values of a spawn, up to where its pod has started. */
  method SpawnLab(deleteFirst: bool, events: nat) returns (values: seq<nat>)
    ensures var first: seq<nat> := if deleteFirst then [1, 2, 5, 12, 20, 30] else [1, 30];
            && |values| == |first| + events && values[..|first|] == first
            && forall k | 0 <= k < events :: values[|first| + k] == if k < 8 then [35, 48, 57, 63, 67, 69, 71, 72][k] else 73
    ensures NeverDecreases(values)
    ensures forall v | v in values :: 1 <= v <= 73
  {
    values := [1];
    if deleteFirst {
      var deleted := DeleteLab(5, 20);
      values := values + [2] + deleted;
    }
    var watched := WatchSpawnEvents(events);
    values := values + [30] + watched;
  }

  /** All the values of a pending spawn that the reconciler found. */
  method MonitorPendingSpawn(events: nat) returns (values: seq<nat>)
    ensures |values| == events + 1 && NeverDecreases(values) && values[0] == 1
    ensures forall k | 0 <= k < events :: values[1 + k] == if k < 8 then [35, 48, 57, 63, 67, 69, 71, 72][k] else 73
    ensures forall v | v in values :: 1 <= v <= 73
  {
    var watched := WatchSpawnEvents(events);
    values := [1] + watched;
  }

  /** A delete that no spawn started reports a quarter, about the middle of the rest, and the end. */
  method DeleteAlone() returns (values: seq<nat>)
    ensures values == [25, 62, 100]
  {
    values := DeleteLab(25, 100);
  }
}
