/** What the coordinator's transitions guarantee, stated over the values of
    module Lifecycle. */
module LifecycleProperties {
  import opened ShardCom
  import opened StartQueue
  import opened Lifecycle

  /** Every stored record sits at the index of its own shard. */
  ghost predicate ConsistentIds(store: seq<ShardStatus>) {
    forall j :: 0 <= j < |store| ==> store[j].shardId == j
  }

  // ---- construction ----

  /** After construction in a release build the queue is exactly 0, 1, ...,
      n - 1 (in a debug build 1, ..., n - 1); the store holds n records,
      record i being shard i's Disconnected placeholder with no guilds and
      time now + StartupStagger * i; no process runs and nobody is waiting. */
  lemma InitialState(n: nat, now: int, debug: bool)
    ensures var c := Initial(n, now, debug);
      && |c.queue| == (if debug && n > 0 then n - 1 else n)
      && (forall k :: 0 <= k < |c.queue| ==> c.queue[k] == (if debug then k + 1 else k))
      && |c.store| == n && |c.processes| == n
      && (forall i :: 0 <= i < n ==>
            c.store[i] == ShardStatus(i, Disconnected, 0, now + StartupStagger * i) && c.processes[i] == None)
      && c.waiting == {} && !c.initialFillDone
  {
  }

  /** k passes of the start loop. */
  function ThrottleSteps(c: Coord, k: nat): (r: Coord)
    requires Inv(c)
    ensures Inv(r)
    decreases k
  {
    if k == 0 then c else ThrottleSteps(ThrottleStep(c), k - 1)
  }

  /** With the shards lo, ..., hi - 1 queued, hi - lo passes start exactly
      those shards, in id order, with consecutive spawn numbers, drain the
      queue and leave the flag as it was; the next pass sets the flag. */
  lemma {:induction false} StartLoopDrains(c: Coord, lo: int, hi: int)
    requires Inv(c) && 0 <= lo <= hi <= |c.processes| && c.queue == IdRange(lo, hi)
    ensures var r := ThrottleSteps(c, hi - lo);
      && r.queue == [] && r.initialFillDone == c.initialFillDone
      && r.nextSpawn == c.nextSpawn + (hi - lo)
      && |r.processes| == |c.processes|
      && (forall i :: lo <= i < hi ==> r.processes[i] == Some(Handle(c.nextSpawn + (i - lo), i)))
      && (forall i :: 0 <= i < |c.processes| && !(lo <= i < hi) ==> r.processes[i] == c.processes[i])
      && ThrottleStep(r).initialFillDone
    decreases hi - lo
  {
    if lo < hi {
      var c1 := ThrottleStep(c);
      assert c.queue[0] == lo && c.queue[1..] == IdRange(lo + 1, hi);
      assert c1.processes == c.processes[lo := Some(Handle(c.nextSpawn, lo))];
      StartLoopDrains(c1, lo + 1, hi);
    }
  }

  /** From construction in a release build, n passes start every shard i with
      spawn number i, and only the pass after them marks the initial fill done. */
  lemma {:induction false} BootstrapStartsEveryShard(n: nat, now: int)
    ensures var r := ThrottleSteps(Initial(n, now, false), n);
      && r.queue == [] && !r.initialFillDone && |r.processes| == n
      && (forall i :: 0 <= i < n ==> r.processes[i] == Some(Handle(i, i)))
      && ThrottleStep(r).initialFillDone
  {
    InitialState(n, now, false);
    StartLoopDrains(Initial(n, now, false), 0, n);
  }

  // ---- stop ----

  /** Stopping an in-range shard resets its store slot to the Disconnected
      placeholder and empties its process slot; no other slot of either
      changes, and neither does the queue, the waiting list or the flag. */
  lemma StopResetsSlot(c: Coord, id: int)
    requires Inv(c) && 0 <= id < |c.processes|
    ensures var r := OnStop(c, id);
      && r.completed
      && r.next.store[id] == ShardStatus(id, Disconnected, 0, c.defaultState.time)
      && r.next.processes[id] == None
      && |r.next.store| == |c.store| && |r.next.processes| == |c.processes|
      && (forall k :: 0 <= k < |c.store| && k != id ==> r.next.store[k] == c.store[k] && r.next.processes[k] == c.processes[k])
      && r.next.queue == c.queue && r.next.waiting == c.waiting
      && r.next.initialFillDone == c.initialFillDone && r.next.nextSpawn == c.nextSpawn
  {
  }

  /** Stopping twice has the effect of stopping once. */
  lemma StopIdempotent(c: Coord, id: int)
    requires Inv(c)
    ensures OnStop(OnStop(c, id).next, id) == OnStop(c, id)
  {
    var r := OnStop(c, id);
    assert WriteStore(r.next.store, id, r.next.defaultState) == r.next.store;
  }

  // ---- restart request ----

  /** A restart request for an in-range shard leaves the placeholder record
      in its store slot and a freshly spawned process of that shard, with a
      spawn number no other slot holds, in its process slot; every other slot
      of both stays as it was, and the queue is bypassed. */
  lemma RestartInstallsFresh(c: Coord, id: int)
    requires Inv(c) && 0 <= id < |c.processes|
    ensures var r := OnRestart(c, id);
      && r.completed
      && r.next.processes == c.processes[id := Some(Handle(c.nextSpawn, id))]
      && r.next.store == c.store[id := ShardStatus(id, Disconnected, 0, c.defaultState.time)]
      && (forall k :: 0 <= k < |r.next.processes| && k != id && r.next.processes[k].Some? ==>
            r.next.processes[k].value.spawn != c.nextSpawn)
      && r.next.queue == c.queue && r.next.waiting == c.waiting
      && r.next.initialFillDone == c.initialFillDone && r.next.nextSpawn == c.nextSpawn + 1
  {
  }

  // ---- heartbeats and the two-strike escalation ----

  /** A report in any state but Disconnected or Disconnecting overwrites its
      shard's store slot and takes the shard off the waiting list; the queue
      and the process table are untouched. */
  lemma HealthyReportClearsProbation(c: Coord, m: ShardStatus)
    requires Inv(c) && !Unhealthy(m.state)
    ensures var r := OnDataReceived(c, Some(m));
      && r.completed
      && r.next.store == WriteStore(c.store, m.shardId, m)
      && r.next.waiting == c.waiting - {m.shardId}
      && r.next.queue == c.queue && r.next.processes == c.processes
  {
  }

  /** A first unhealthy report only puts the shard on the waiting list: no
      stop, no enqueue. */
  lemma FirstStrikeOnlyLists(c: Coord, m: ShardStatus)
    requires Inv(c) && Unhealthy(m.state) && m.shardId !in c.waiting
    ensures var r := OnDataReceived(c, Some(m));
      && r.completed
      && r.next.store == WriteStore(c.store, m.shardId, m)
      && r.next.waiting == c.waiting + {m.shardId}
      && r.next.queue == c.queue && r.next.processes == c.processes
  {
  }

  /** An unhealthy report for a listed in-range shard stops it, queues it and
      takes it off the list; the stop's placeholder replaces the report in
      the store. */
  lemma SecondStrikeRestarts(c: Coord, m: ShardStatus)
    requires Inv(c) && Unhealthy(m.state) && m.shardId in c.waiting && 0 <= m.shardId < |c.processes|
    ensures var r := OnDataReceived(c, Some(m));
      && r.completed
      && r.next.waiting == c.waiting - {m.shardId}
      && r.next.queue == Enqueued(c.queue, m.shardId)
      && r.next.processes == c.processes[m.shardId := None]
      && r.next.store[m.shardId] == ShardStatus(m.shardId, Disconnected, 0, c.defaultState.time)
  {
  }

  /** Two unhealthy reports in a row for an unlisted in-range shard: after the
      first nothing is stopped or queued; after the second the shard is
      stopped, queued once and off the list. */
  lemma {:induction false} TwoStrikes(c: Coord, m1: ShardStatus, m2: ShardStatus)
    requires Inv(c) && Unhealthy(m1.state) && Unhealthy(m2.state)
    requires m1.shardId == m2.shardId && 0 <= m1.shardId < |c.processes| && m1.shardId !in c.waiting
    ensures var r1 := OnDataReceived(c, Some(m1));
            var r2 := OnDataReceived(r1.next, Some(m2));
      && r1.next.queue == c.queue && r1.next.processes == c.processes && m1.shardId in r1.next.waiting
      && r2.completed
      && r2.next.queue == Enqueued(c.queue, m1.shardId)
      && r2.next.processes[m1.shardId] == None
      && r2.next.waiting == c.waiting
  {
    FirstStrikeOnlyLists(c, m1);
    var r1 := OnDataReceived(c, Some(m1));
    SecondStrikeRestarts(r1.next, m2);
  }

  /** An unhealthy report followed by a healthy one leaves the shard off the
      list with nothing stopped or queued. */
  lemma {:induction false} RecoveryBetweenStrikes(c: Coord, m1: ShardStatus, m2: ShardStatus)
    requires Inv(c) && Unhealthy(m1.state) && !Unhealthy(m2.state)
    requires m1.shardId == m2.shardId && m1.shardId !in c.waiting
    ensures var r2 := OnDataReceived(OnDataReceived(c, Some(m1)).next, Some(m2));
      && r2.completed
      && r2.next.waiting == c.waiting && r2.next.queue == c.queue && r2.next.processes == c.processes
  {
    FirstStrikeOnlyLists(c, m1);
    HealthyReportClearsProbation(OnDataReceived(c, Some(m1)).next, m2);
  }

  // ---- the start loop ----

  /** With shards queued, a pass starts the front one: it leaves the queue and
      the waiting list, and its slot receives a process no other slot holds. */
  lemma ThrottleStepStartsFront(c: Coord)
    requires Inv(c) && c.queue != []
    ensures var id := c.queue[0]; var r := ThrottleStep(c);
      && r.queue == c.queue[1..] && id !in r.queue
      && id !in r.waiting && r.waiting == c.waiting - {id}
      && r.processes[id] == Some(Handle(c.nextSpawn, id))
      && (forall k :: 0 <= k < |c.processes| && k != id ==> r.processes[k] == c.processes[k])
      && (forall k :: 0 <= k < |c.processes| && k != id && c.processes[k].Some? ==> c.processes[k].value.spawn != c.nextSpawn)
      && r.store == c.store && r.initialFillDone == c.initialFillDone
  {
    assert c.queue[0] !in c.queue[1..];
  }

  /** With nothing queued, a pass only marks the initial fill as done. */
  lemma ThrottleStepFills(c: Coord)
    requires Inv(c) && c.queue == []
    ensures ThrottleStep(c) == c.(initialFillDone := true)
  {
  }

  /** The start loop drops a live process when the queue holds a shard that a
      restart request has already restarted: the handle the restart installed
      is in no slot afterwards, and it was never stopped. */
  lemma {:induction false} RestartWhileQueuedOrphans(c: Coord)
    requires Inv(c) && c.queue != []
    ensures var id := c.queue[0];
            var h := Handle(c.nextSpawn, id);
            var r1 := OnRestart(c, id);
            var r2 := ThrottleStep(r1.next);
      && r1.completed && r1.next.processes[id] == Some(h)
      && forall k :: 0 <= k < |r2.processes| ==> r2.processes[k] != Some(h)
  {
    var id := c.queue[0];
    RestartInstallsFresh(c, id);
    var r1 := OnRestart(c, id);
    var r2 := ThrottleStep(r1.next);
    forall k | 0 <= k < |r2.processes| ensures r2.processes[k] != Some(Handle(c.nextSpawn, id)) {
      if k != id {
        assert r2.processes[k] == c.processes[k];
      }
    }
  }

  // ---- the health loop ----

  /** Handling one stale record of an in-range shard stops and queues it and
      writes the record back with time now + RestartStagger * |queue|, the
      length after the enqueue, which is not stale at now. */
  lemma SweepOneRestarts(c: Coord, s: ShardStatus, now: int)
    requires Inv(c) && 0 <= s.shardId < |c.processes|
    ensures var r := SweepOne(c, s, now);
      && r.completed
      && r.next.queue == Enqueued(c.queue, s.shardId)
      && r.next.store[s.shardId] == s.(time := now + RestartStagger * |r.next.queue|)
      && !IsStale(r.next.store[s.shardId], now)
      && r.next.processes[s.shardId] == None
      && (forall k :: 0 <= k < |c.store| && k != s.shardId ==> r.next.store[k] == c.store[k] && r.next.processes[k] == c.processes[k])
      && r.next.waiting == c.waiting && r.next.initialFillDone == c.initialFillDone
  {
  }

  /** A completed pass over stale records has queued every one of their
      shards, emptied their process slots and left their store slots not
      stale at now; nothing queued, empty or fresh before is undone, and the
      waiting list and the flag are untouched. */
  lemma {:induction false} SweepStaleRestartsAll(c: Coord, recs: seq<ShardStatus>, now: int)
    requires Inv(c)
    ensures var r := SweepStale(c, recs, now);
      && r.next.initialFillDone == c.initialFillDone && r.next.waiting == c.waiting
      && |r.next.store| == |c.store| && |r.next.processes| == |c.processes|
      && (r.completed ==>
            && (forall k :: 0 <= k < |recs| ==>
                  0 <= recs[k].shardId < |c.processes|
                  && recs[k].shardId in r.next.queue
                  && r.next.processes[recs[k].shardId] == None
                  && !IsStale(r.next.store[recs[k].shardId], now))
            && (forall x :: x in c.queue ==> x in r.next.queue)
            && (forall j :: 0 <= j < |c.processes| && c.processes[j].None? ==> r.next.processes[j].None?)
            && (forall j :: 0 <= j < |c.store| && !IsStale(c.store[j], now) ==> !IsStale(r.next.store[j], now)))
    decreases |recs|
  {
    if recs != [] {
      var s := recs[0];
      var st := SweepOne(c, s, now);
      if 0 <= s.shardId < |c.processes| {
        SweepOneRestarts(c, s, now);
        SweepStaleRestartsAll(st.next, recs[1..], now);
        var r := SweepStale(st.next, recs[1..], now);
        if r.completed {
          forall k | 0 <= k < |recs|
            ensures 0 <= recs[k].shardId < |c.processes| && recs[k].shardId in r.next.queue
            ensures r.next.processes[recs[k].shardId] == None && !IsStale(r.next.store[recs[k].shardId], now)
          {
            if k > 0 {
              assert recs[k] == recs[1..][k - 1];
            }
          }
        }
      }
    }
  }

  /** A pass with no stale record queues, behind what was already queued,
      exactly the empty or exited process slots (in a debug build, nothing);
      everything else stays as it was. */
  lemma {:induction false} SweepWithoutStaleQueuesDead(c: Coord, now: int, exited: set<nat>, debug: bool)
    requires Inv(c) && c.initialFillDone && StaleRecords(c.store, now) == []
    ensures var r := Sweep(c, now, exited, debug);
      && r.completed
      && r.next == c.(queue := r.next.queue)
      && |c.queue| <= |r.next.queue| && r.next.queue[..|c.queue|] == c.queue
      && (forall x :: x in r.next.queue <==> x in c.queue || (!debug && 0 <= x < |c.processes| && Dead(c.processes[x], exited)))
      && (debug ==> r.next.queue == c.queue)
  {
    if !debug {
      EnqueueAllFacts(c.queue, DeadSlots(c.processes, exited));
    }
  }

  /** A completed pass that finds stale records handles all of them: the
      shard named by each record stale at now is queued, its process slot is
      empty and its store slot is no longer stale. */
  lemma {:induction false} SweepRestartsEveryStale(c: Coord, now: int, exited: set<nat>, debug: bool)
    requires Inv(c) && c.initialFillDone && StaleRecords(c.store, now) != []
    ensures var r := Sweep(c, now, exited, debug);
      r.completed ==>
        forall j :: 0 <= j < |c.store| && IsStale(c.store[j], now) ==>
          var id := c.store[j].shardId;
          0 <= id < |c.processes| && id in r.next.queue && r.next.processes[id] == None
          && !IsStale(r.next.store[id], now)
  {
    var recs := StaleRecords(c.store, now);
    SweepStaleRestartsAll(c, recs, now);
    var r := Sweep(c, now, exited, debug);
    if r.completed {
      forall j | 0 <= j < |c.store| && IsStale(c.store[j], now)
        ensures 0 <= c.store[j].shardId < |c.processes| && c.store[j].shardId in r.next.queue
        ensures r.next.processes[c.store[j].shardId] == None && !IsStale(r.next.store[c.store[j].shardId], now)
      {
        assert c.store[j] in c.store;
        assert c.store[j] in recs;
        var k :| 0 <= k < |recs| && recs[k] == c.store[j];
      }
    }
  }

  /** When every record sits at its own shard's index, a pass leaves no
      stale record in the store. */
  lemma {:induction false} SweepClearsStaleness(c: Coord, now: int, exited: set<nat>, debug: bool)
    requires Inv(c) && c.initialFillDone && ConsistentIds(c.store)
    ensures var r := Sweep(c, now, exited, debug);
      r.completed && forall j :: 0 <= j < |r.next.store| ==> !IsStale(r.next.store[j], now)
  {
    var recs := StaleRecords(c.store, now);
    if recs == [] {
      SweepWithoutStaleQueuesDead(c, now, exited, debug);
      forall j | 0 <= j < |c.store| ensures !IsStale(c.store[j], now) {
        assert c.store[j] in c.store;
      }
    } else {
      StaleIdsInRange(c.store, now);
      SweepStaleCompletes(c, recs, now);
      SweepRestartsEveryStale(c, now, exited, debug);
      SweepStaleRestartsAll(c, recs, now);
      var r := SweepStale(c, recs, now);
      forall j | 0 <= j < |c.store| ensures !IsStale(r.next.store[j], now) {
        if IsStale(c.store[j], now) {
          assert c.store[j].shardId == j;
        }
      }
    }
  }

  /** Records at their own shard's index name in-range shards. */
  lemma StaleIdsInRange(store: seq<ShardStatus>, now: int)
    requires ConsistentIds(store)
    ensures forall k :: 0 <= k < |StaleRecords(store, now)| ==> 0 <= StaleRecords(store, now)[k].shardId < |store|
  {
    var recs := StaleRecords(store, now);
    forall k | 0 <= k < |recs| ensures 0 <= recs[k].shardId < |store| {
      assert recs[k] in recs;
      var j :| 0 <= j < |store| && store[j] == recs[k];
    }
  }

  /** A pass over records that all name in-range shards completes. */
  lemma {:induction false} SweepStaleCompletes(c: Coord, recs: seq<ShardStatus>, now: int)
    requires Inv(c) && forall k :: 0 <= k < |recs| ==> 0 <= recs[k].shardId < |c.processes|
    ensures SweepStale(c, recs, now).completed
    decreases |recs|
  {
    if recs != [] {
      SweepOneRestarts(c, recs[0], now);
      var st := SweepOne(c, recs[0], now);
      assert forall k :: 0 <= k < |recs| - 1 ==> recs[1..][k] == recs[k + 1];
      SweepStaleCompletes(st.next, recs[1..], now);
    }
  }

  // ---- one record per shard ----

  /** After construction every record sits at its own shard's index. */
  lemma InitialConsistent(n: nat, now: int, debug: bool)
    ensures ConsistentIds(Initial(n, now, debug).store)
  {
  }

  /** A stop or restart request for an in-range shard keeps every record at
      its own shard's index: the placeholder it writes carries that id. */
  lemma StopKeepsConsistent(c: Coord, id: int)
    requires Inv(c) && ConsistentIds(c.store) && 0 <= id < |c.store|
    ensures ConsistentIds(OnStop(c, id).next.store) && ConsistentIds(OnRestart(c, id).next.store)
  {
  }

  /** A stop request with a negative id breaks it: the placeholder takes the
      negative id and the indexed write puts it in a slot counted from the
      tail, before the table access fails. */
  lemma NegativeStopBreaksConsistency(c: Coord)
    requires Inv(c) && |c.store| > 0
    ensures var r := OnStop(c, -1);
      && !r.completed
      && r.next.store[|c.store| - 1].shardId == -1
      && !ConsistentIds(r.next.store)
  {
  }

  /** A report that names an in-range shard keeps every record at its own
      shard's index, through the escalation as well. */
  lemma ReportKeepsConsistent(c: Coord, m: ShardStatus)
    requires Inv(c) && ConsistentIds(c.store) && 0 <= m.shardId < |c.store|
    ensures ConsistentIds(OnDataReceived(c, Some(m)).next.store)
  {
  }

  /** A start-loop pass does not touch the store. */
  lemma ThrottleStepKeepsStore(c: Coord)
    requires Inv(c)
    ensures ThrottleStep(c).store == c.store
  {
  }

  /** A pass over records that name in-range shards keeps every record at
      its own shard's index: each record is written back at its own id. */
  lemma {:induction false} SweepStaleKeepsConsistent(c: Coord, recs: seq<ShardStatus>, now: int)
    requires Inv(c) && ConsistentIds(c.store)
    requires forall k :: 0 <= k < |recs| ==> 0 <= recs[k].shardId < |c.store|
    ensures ConsistentIds(SweepStale(c, recs, now).next.store)
    decreases |recs|
  {
    if recs != [] {
      SweepOneRestarts(c, recs[0], now);
      var st := SweepOne(c, recs[0], now);
      assert forall k :: 0 <= k < |recs| - 1 ==> recs[1..][k] == recs[k + 1];
      SweepStaleKeepsConsistent(st.next, recs[1..], now);
    }
  }

  /** A health-loop pass keeps every record at its own shard's index. */
  lemma {:induction false} SweepKeepsConsistent(c: Coord, now: int, exited: set<nat>, debug: bool)
    requires Inv(c) && c.initialFillDone && ConsistentIds(c.store)
    ensures ConsistentIds(Sweep(c, now, exited, debug).next.store)
  {
    var recs := StaleRecords(c.store, now);
    if recs != [] {
      StaleIdsInRange(c.store, now);
      SweepStaleKeepsConsistent(c, recs, now);
    }
  }

  // ---- the initial-fill flag ----

  /** Once the initial fill is done it stays done through every transition. */
  lemma FillStaysDone(c: Coord, id: int, msg: Option<ShardStatus>, now: int, exited: set<nat>, debug: bool)
    requires Inv(c) && c.initialFillDone
    ensures OnStop(c, id).next.initialFillDone && OnRestart(c, id).next.initialFillDone
    ensures OnDataReceived(c, msg).next.initialFillDone && ThrottleStep(c).initialFillDone
    ensures Sweep(c, now, exited, debug).next.initialFillDone
  {
    SweepStaleRestartsAll(c, StaleRecords(c.store, now), now);
  }
}
