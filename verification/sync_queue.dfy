/** The sync queue of the main window: pipeline indices waiting to be
    synced, the one sync allowed to run at a time, and the per-pipeline
    time of the last automatic sync. Widgets, threads and logging are not
    modelled; the number of pipelines is a parameter, and every index
    inside it is taken to have its card on screen. */
module SyncQueue {
  import opened Wrappers

  /** Seconds an automatic sync of the same pipeline is held back. */
  const Cooldown: int := 1800

  /** `sync_queue`, the index of the running `SyncThread` (`None` when
      `_sync_running` is false), and `last_auto_sync_time`. */
  datatype Sched = Sched(waiting: seq<int>, running: Option<int>, lastAuto: map<int, int>)

  predicate InRange(index: int, count: int) {
    0 <= index < count
  }

  predicate NoDup(q: seq<int>) {
    forall i, j :: 0 <= i < j < |q| ==> q[i] != q[j]
  }

  /** No index waits twice, and the running one does not wait as well. */
  predicate Valid(s: Sched) {
    NoDup(s.waiting) && (s.running.Some? ==> s.running.value !in s.waiting)
  }

  // ------------------------------------------------------------- starting

  /** Position of the first index in `q` that names an existing pipeline. */
  function FirstInRange(q: seq<int>, count: int): (k: Option<nat>)
    ensures k.None? ==> forall i :: 0 <= i < |q| ==> !InRange(q[i], count)
    ensures k.Some? ==> k.value < |q| && InRange(q[k.value], count)
                        && forall i :: 0 <= i < k.value ==> !InRange(q[i], count)
    decreases |q|
  {
    if |q| == 0 then None
    else if InRange(q[0], count) then Some(0)
    else
      match FirstInRange(q[1..], count)
      case None => None
      case Some(k) => Some(k + 1)
  }

  /** `_start_next_sync`: nothing while a sync runs; otherwise indices are
      taken from the front of the queue, those naming no pipeline are
      dropped, and the first that names one starts. */
  function StartNext(s: Sched, count: int): (r: Sched)
    ensures s.running.Some? ==> r == s
    ensures r.lastAuto == s.lastAuto
    ensures s.running.None? ==>
      match FirstInRange(s.waiting, count)
      case None => r.running.None? && r.waiting == []
      case Some(k) => r.running == Some(s.waiting[k]) && r.waiting == s.waiting[k + 1..]
    decreases |s.waiting|
  {
    if s.running.Some? || |s.waiting| == 0 then s
    else if !InRange(s.waiting[0], count) then
      StartNext(s.(waiting := s.waiting[1..]), count)
    else s.(waiting := s.waiting[1..], running := Some(s.waiting[0]))
  }

  /** Starting the next sync keeps the queue free of duplicates, and what
      runs afterwards is an existing pipeline. */
  lemma StartNextValid(s: Sched, count: int)
    requires Valid(s)
    ensures Valid(StartNext(s, count))
    ensures s.running.None? && StartNext(s, count).running.Some? ==> InRange(StartNext(s, count).running.value, count)
  {
    var r := StartNext(s, count);
    if s.running.None? {
      match FirstInRange(s.waiting, count)
      case None =>
      case Some(k) =>
    }
  }

  // ------------------------------------------------------------ requesting

  /** Why `on_sync_requested` returned, or that it queued the index. */
  datatype Reply = AlreadyQueued | AlreadyRunning | NoSuchPipeline | Enqueued

  /** `on_sync_requested`: an index already waiting or already running is
      refused, and so is one naming no pipeline; otherwise it joins the back
      of the queue and the queue is kicked. */
  function RequestSync(s: Sched, index: int, count: int): (r: (Sched, Reply))
    ensures index in s.waiting <==> r.1 == AlreadyQueued
    ensures r.1 == AlreadyRunning <==> index !in s.waiting && s.running == Some(index)
    ensures r.1 == NoSuchPipeline <==> index !in s.waiting && s.running != Some(index) && !InRange(index, count)
    ensures r.1 != Enqueued ==> r.0 == s
    ensures r.1 == Enqueued && s.running.Some? ==> r.0 == s.(waiting := s.waiting + [index])
    ensures r.1 == Enqueued && s.running.None? ==> r.0.running.Some? && r.0.lastAuto == s.lastAuto
    ensures r.1 == Enqueued ==> index in r.0.waiting || r.0.running == Some(index)
  {
    if index in s.waiting then (s, AlreadyQueued)
    else if s.running == Some(index) then (s, AlreadyRunning)
    else if !InRange(index, count) then (s, NoSuchPipeline)
    else
      EnqueueStarts(s, index, count);
      (StartNext(s.(waiting := s.waiting + [index]), count), Enqueued)
  }

  /** An index naming a pipeline, put at the back of the queue, is either
      started or still waiting once the queue has been kicked. */
  lemma EnqueueStarts(s: Sched, index: int, count: int)
    requires InRange(index, count)
    ensures var r := StartNext(s.(waiting := s.waiting + [index]), count);
      (s.running.None? ==> r.running.Some?) && (index in r.waiting || r.running == Some(index))
  {
    var q := s.waiting + [index];
    assert q[|q| - 1] == index;
    var r := StartNext(s.(waiting := q), count);
    if s.running.None? {
      var k := FirstInRange(q, count).value;
      if k < |q| - 1 {
        assert r.waiting[|q| - 2 - k] == index;
      }
    }
  }

  /** A request keeps the queue free of duplicates. */
  lemma RequestSyncValid(s: Sched, index: int, count: int)
    requires Valid(s)
    ensures Valid(RequestSync(s, index, count).0)
  {
    if index !in s.waiting && s.running != Some(index) && InRange(index, count) {
      var t := s.(waiting := s.waiting + [index]);
      assert Valid(t);
      StartNextValid(t, count);
    }
  }

  // ------------------------------------------------------------- finishing

  /** `on_sync_finished` and `on_sync_error` alike: the running flag is
      cleared and the next queued sync starts, if any index still names a
      pipeline; the queue then drains up to and including that index. */
  function SyncDone(s: Sched, count: int): (r: Sched)
    ensures r.lastAuto == s.lastAuto
    ensures r.running.None? <==> FirstInRange(s.waiting, count).None?
    ensures r.running.None? ==> r.waiting == []
    ensures r.running.Some? ==> InRange(r.running.value, count) && |r.waiting| < |s.waiting|
  {
    StartNext(s.(running := None), count)
  }

  lemma SyncDoneValid(s: Sched, count: int)
    requires Valid(s)
    ensures Valid(SyncDone(s, count))
  {
    StartNextValid(s.(running := None), count);
  }

  // -------------------------------------------------------------- deleting

  /** The queue with every occurrence of `x` removed. */
  function Without(q: seq<int>, x: int): (r: seq<int>)
    ensures x !in r
    ensures |r| <= |q|
    ensures forall y :: y != x ==> multiset(r)[y] == multiset(q)[y]
    decreases |q|
  {
    if |q| == 0 then []
    else
      assert q == [q[0]] + q[1..];
      (if q[0] == x then [] else [q[0]]) + Without(q[1..], x)
  }

  /** Removing an index keeps the order of the rest: it works piecewise. */
  lemma {:induction false} WithoutConcat(a: seq<int>, b: seq<int>, x: int)
    ensures Without(a + b, x) == Without(a, x) + Without(b, x)
    decreases |a|
  {
    if |a| > 0 {
      assert (a + b)[1..] == a[1..] + b;
      WithoutConcat(a[1..], b, x);
    } else {
      assert a + b == b;
    }
  }

  /** `on_delete_requested` as written: every waiting occurrence of the
      deleted index is removed; the other waiting indices are kept as they
      are, although every pipeline after the deleted one moves down by one. */
  function DeleteRequested(s: Sched, index: int): (r: Sched)
    ensures index !in r.waiting
    ensures forall y :: y != index ==> multiset(r.waiting)[y] == multiset(s.waiting)[y]
    ensures r.running == s.running && r.lastAuto == s.lastAuto
  {
    s.(waiting := Without(s.waiting, index))
  }

  /** With pipelines `[a, b]` and `b` (index 1) waiting, deleting `a` leaves
      index 1 in the queue, which names no pipeline any more: the queued
      sync of `b` is dropped. With `[a, b, c]`, the same deletion makes
      index 1 name `c`, so `c` is synced instead of `b`. */
  lemma DeleteRetargets<T>(a: T, b: T, c: T)
    requires b != c
    ensures var s := DeleteRequested(Sched([1], None, map[]), 0);
      && StartNext(s, |[b]|) == Sched([], None, map[])
      && StartNext(s, |[b, c]|).running == Some(1)
      && [b, c][1] != b
  {
    assert Without([1], 0) == [1] by {
      assert [1][1..] == [];
    }
    assert [1][1..] == [];
  }

  /** An index after the deleted one moves down by one. */
  function Shift(y: int, index: int): int {
    if y > index then y - 1 else y
  }

  function Renumber(q: seq<int>, index: int): (r: seq<int>)
    ensures |r| == |q|
    ensures forall i :: 0 <= i < |q| ==> r[i] == Shift(q[i], index)
  {
    seq(|q|, i requires 0 <= i < |q| => Shift(q[i], index))
  }

  /** The running index after a deletion: moved down with its pipeline,
      or -1 (no listed pipeline) when the deleted pipeline is the one
      running; the sync itself carries on either way. */
  function ShiftRunning(v: int, index: int): int {
    if v == index then -1 else Shift(v, index)
  }

  /** `on_delete_requested` corrected: the deleted index leaves the queue
      and every index after it moves down with its pipeline. */
  function DeleteRenumbered(s: Sched, index: int): (r: Sched)
    ensures |r.waiting| <= |s.waiting|
    ensures forall i :: 0 <= i < |r.waiting| ==>
      var y := r.waiting[i]; var before := if y >= index then y + 1 else y;
      before != index && before in s.waiting
    ensures r.running.Some? <==> s.running.Some?
    ensures r.lastAuto == s.lastAuto
  {
    var kept := Without(s.waiting, index);
    KeptWaiting(s.waiting, index);
    Sched(Renumber(kept, index),
          if s.running.Some? then Some(ShiftRunning(s.running.value, index)) else None,
          s.lastAuto)
  }

  /** What survives the removal of `index` was waiting before and is not
      `index`. */
  lemma KeptWaiting(q: seq<int>, index: int)
    ensures forall i :: 0 <= i < |Without(q, index)| ==>
      Without(q, index)[i] != index && Without(q, index)[i] in q
  {
    var kept := Without(q, index);
    forall i | 0 <= i < |kept| ensures kept[i] != index && kept[i] in q {
      assert kept[i] in kept;
      assert kept[i] in multiset(kept);
      assert kept[i] in multiset(q);
    }
  }

  /** After the corrected deletion, every waiting index names the same
      pipeline it named before, in the list with the deleted one removed. */
  lemma DeleteRenumberedKeepsTargets<T>(ps: seq<T>, s: Sched, index: int)
    requires InRange(index, |ps|)
    requires forall i :: 0 <= i < |s.waiting| ==> InRange(s.waiting[i], |ps|)
    ensures var kept := Without(s.waiting, index);
      var r := DeleteRenumbered(s, index).waiting;
      var after := ps[..index] + ps[index + 1..];
      |r| == |kept| &&
      forall i :: 0 <= i < |r| ==> InRange(r[i], |after|) && after[r[i]] == ps[kept[i]]
  {
    var kept := Without(s.waiting, index);
    var r := DeleteRenumbered(s, index).waiting;
    var after := ps[..index] + ps[index + 1..];
    KeptWaiting(s.waiting, index);
    forall i | 0 <= i < |r| ensures InRange(r[i], |after|) && after[r[i]] == ps[kept[i]] {
      var y := kept[i];
      var k :| 0 <= k < |s.waiting| && s.waiting[k] == y;
      if y > index {
        assert after[y - 1] == ps[index + 1..][y - 1 - index];
      } else {
        assert after[y] == ps[..index][y];
      }
    }
  }

  /** The corrected deletion keeps the queue free of duplicates. Queued
      indices are never negative: only indices naming a pipeline are ever
      put in the queue. */
  lemma DeleteRenumberedValid(s: Sched, index: int)
    requires Valid(s) && 0 <= index
    requires forall i :: 0 <= i < |s.waiting| ==> s.waiting[i] >= 0
    ensures Valid(DeleteRenumbered(s, index))
  {
    var kept := Without(s.waiting, index);
    KeptWaiting(s.waiting, index);
    WithoutNoDup(s.waiting, index);
    var r := DeleteRenumbered(s, index);
    assert NoDup(r.waiting) by {
      forall i, j | 0 <= i < j < |kept| ensures r.waiting[i] != r.waiting[j] {
        assert kept[i] != kept[j];
      }
    }
  }

  /** Removing an index from a queue without duplicates leaves one. */
  lemma {:induction false} WithoutNoDup(q: seq<int>, x: int)
    requires NoDup(q)
    ensures NoDup(Without(q, x))
    decreases |q|
  {
    if |q| > 0 {
      WithoutNoDup(q[1..], x);
      KeptWaiting(q[1..], x);
      assert q[0] !in q[1..];
    }
  }

  // ------------------------------------------------------------ auto sync

  /** When an index was last auto-synced: 0 when never. */
  function LastAuto(last: map<int, int>, i: int): int {
    if i in last then last[i] else 0
  }

  /** An auto-enabled pipeline is due when it was never auto-synced or was
      last auto-synced more than the cooldown ago. */
  predicate Due(last: map<int, int>, flags: seq<bool>, now: int, i: int) {
    0 <= i < |flags| && flags[i] && (LastAuto(last, i) == 0 || now - LastAuto(last, i) > Cooldown)
  }

  /** The due indices from `from` on, in increasing order. */
  function DueFrom(last: map<int, int>, flags: seq<bool>, now: int, from: nat): (ds: seq<int>)
    ensures forall x :: x in ds <==> from <= x && Due(last, flags, now, x)
    ensures forall i, j :: 0 <= i < j < |ds| ==> ds[i] < ds[j]
    decreases |flags| - from
  {
    if from >= |flags| then []
    else
      var rest := DueFrom(last, flags, now, from + 1);
      assert forall k :: 0 <= k < |rest| ==> rest[k] > from by {
        forall k | 0 <= k < |rest| ensures rest[k] > from {
          assert rest[k] in rest;
        }
      }
      (if Due(last, flags, now, from) then [from] else []) + rest
  }

  /** The times after a trigger: every due index is stamped `now`, every
      other entry kept. */
  function Stamped(last: map<int, int>, flags: seq<bool>, now: int, upto: int): map<int, int> {
    map i | i in last.Keys + (set j | 0 <= j < upto && Due(last, flags, now, j)) ::
      if i < upto && Due(last, flags, now, i) then now else last[i]
  }

  /** Stamping index `upto` extends the stamps of the indices before it;
      the entry of `upto` itself is untouched until then. */
  lemma StampStep(last: map<int, int>, flags: seq<bool>, now: int, upto: int)
    ensures LastAuto(Stamped(last, flags, now, upto), upto) == LastAuto(last, upto)
    ensures Due(last, flags, now, upto) ==>
      Stamped(last, flags, now, upto + 1) == Stamped(last, flags, now, upto)[upto := now]
    ensures !Due(last, flags, now, upto) ==>
      Stamped(last, flags, now, upto + 1) == Stamped(last, flags, now, upto)
  {
    var m0 := Stamped(last, flags, now, upto);
    var m1 := Stamped(last, flags, now, upto + 1);
    if Due(last, flags, now, upto) {
      assert m1.Keys == m0[upto := now].Keys;
    } else {
      assert m1.Keys == m0.Keys;
    }
  }

  /** `trigger_auto_sync` as a reference definition: the due indices join
      the back of the queue in increasing order, their times become `now`,
      and the queue is kicked when nothing runs. */
  function AutoSync(s: Sched, flags: seq<bool>, now: int, count: int): Sched {
    var queued := s.(waiting := s.waiting + DueFrom(s.lastAuto, flags, now, 0),
                     lastAuto := Stamped(s.lastAuto, flags, now, |flags|));
    if queued.running.None? && |queued.waiting| > 0 then StartNext(queued, count) else queued
  }

  /** `trigger_auto_sync`: one pass over the cards in order. */
  method TriggerAutoSync(s: Sched, flags: seq<bool>, now: int, count: int) returns (r: Sched)
    ensures r == AutoSync(s, flags, now, count)
  {
    var waiting := s.waiting;
    var last := s.lastAuto;
    var i := 0;
    while i < |flags|
      invariant 0 <= i <= |flags|
      invariant waiting + DueFrom(s.lastAuto, flags, now, i) == s.waiting + DueFrom(s.lastAuto, flags, now, 0)
      invariant last == Stamped(s.lastAuto, flags, now, i)
    {
      var t := if i in last then last[i] else 0;
      StampStep(s.lastAuto, flags, now, i);
      var rest := DueFrom(s.lastAuto, flags, now, i + 1);
      assert DueFrom(s.lastAuto, flags, now, i) == (if Due(s.lastAuto, flags, now, i) then [i] else []) + rest;
      if flags[i] && !(t != 0 && now - t <= Cooldown) {
        assert Due(s.lastAuto, flags, now, i);
        last := last[i := now];
        assert (waiting + [i]) + rest == waiting + ([i] + rest);
        waiting := waiting + [i];
      } else {
        assert !Due(s.lastAuto, flags, now, i);
        assert [] + rest == rest;
      }
      i := i + 1;
    }
    assert DueFrom(s.lastAuto, flags, now, i) == [];
    assert waiting == s.waiting + DueFrom(s.lastAuto, flags, now, 0);
    r := s.(waiting := waiting, lastAuto := last);
    if r.running.None? && |r.waiting| > 0 {
      r := StartNext(r, count);
    }
  }

  /** An index stamped at a non-zero time `t` is not queued again by a
      trigger at most the cooldown later, and every queued index was due:
      auto-enabled and never or long enough ago synced. */
  lemma CooldownHolds(s: Sched, flags: seq<bool>, now: int, i: int)
    requires i in s.lastAuto && s.lastAuto[i] != 0 && now - s.lastAuto[i] <= Cooldown
    ensures i !in DueFrom(s.lastAuto, flags, now, 0)
    ensures forall x :: x in DueFrom(s.lastAuto, flags, now, 0) ==> 0 <= x < |flags| && flags[x]
  {
  }

  /** A trigger stamps exactly the due indices with `now`. */
  lemma AutoSyncStamps(s: Sched, flags: seq<bool>, now: int, count: int, i: int)
    ensures Due(s.lastAuto, flags, now, i) ==> AutoSync(s, flags, now, count).lastAuto[i] == now
    ensures !Due(s.lastAuto, flags, now, i) && i in s.lastAuto ==> AutoSync(s, flags, now, count).lastAuto[i] == s.lastAuto[i]
    ensures !Due(s.lastAuto, flags, now, i) && i !in s.lastAuto ==> i !in AutoSync(s, flags, now, count).lastAuto
  {
    var queued := s.(waiting := s.waiting + DueFrom(s.lastAuto, flags, now, 0),
                     lastAuto := Stamped(s.lastAuto, flags, now, |flags|));
    if queued.running.None? && |queued.waiting| > 0 {
      assert StartNext(queued, count).lastAuto == queued.lastAuto;
    }
  }

  /** As written, a trigger queues an auto-enabled pipeline even when it is
      already waiting: with index 0 waiting behind a running sync, the queue
      ends up holding 0 twice. */
  lemma AutoSyncDuplicates()
    ensures var s := Sched([0], Some(1), map[]);
      Valid(s) && !Valid(AutoSync(s, [true], 5000, 2))
  {
    var s := Sched([0], Some(1), map[]);
    assert Due(s.lastAuto, [true], 5000, 0);
    assert DueFrom(s.lastAuto, [true], 5000, 1) == [];
    assert DueFrom(s.lastAuto, [true], 5000, 0) == [0];
    var r := AutoSync(s, [true], 5000, 2);
    assert r.waiting == [0, 0];
    assert r.waiting[0] == r.waiting[1];
  }

  /** The due indices that are neither waiting nor running. */
  function Fresh(ds: seq<int>, s: Sched): (r: seq<int>)
    ensures forall x :: x in r <==> x in ds && x !in s.waiting && s.running != Some(x)
    ensures NoDup(ds) ==> NoDup(r)
    decreases |ds|
  {
    if |ds| == 0 then []
    else
      var rest := Fresh(ds[1..], s);
      assert NoDup(ds) ==> ds[0] !in ds[1..];
      if ds[0] !in s.waiting && s.running != Some(ds[0]) then [ds[0]] + rest else rest
  }

  /** `trigger_auto_sync` corrected: a due pipeline that is already waiting
      or running is stamped but not queued a second time. */
  function AutoSyncFixed(s: Sched, flags: seq<bool>, now: int, count: int): (r: Sched)
    ensures r.lastAuto == Stamped(s.lastAuto, flags, now, |flags|)
  {
    var queued := s.(waiting := s.waiting + Fresh(DueFrom(s.lastAuto, flags, now, 0), s),
                     lastAuto := Stamped(s.lastAuto, flags, now, |flags|));
    if queued.running.None? && |queued.waiting| > 0 then StartNext(queued, count) else queued
  }

  /** The corrected trigger keeps the queue free of duplicates. */
  lemma AutoSyncFixedValid(s: Sched, flags: seq<bool>, now: int, count: int)
    requires Valid(s)
    ensures Valid(AutoSyncFixed(s, flags, now, count))
  {
    var ds := DueFrom(s.lastAuto, flags, now, 0);
    var f := Fresh(ds, s);
    assert NoDup(ds);
    var q := s.waiting + f;
    assert NoDup(q) by {
      forall i, j | 0 <= i < j < |q| ensures q[i] != q[j] {
        if i < |s.waiting| && j >= |s.waiting| {
          assert q[j] in f;
          assert q[i] in s.waiting;
        }
      }
    }
    var queued := s.(waiting := q, lastAuto := Stamped(s.lastAuto, flags, now, |flags|));
    assert Valid(queued);
    if queued.running.None? && |queued.waiting| > 0 {
      StartNextValid(queued, count);
    }
  }
}
