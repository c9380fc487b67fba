/** ShardsCoordinator: the object that owns the start queue, the waiting
    list, the process table and the status store, with its message handlers
    and one pass of each background loop. Every method is proved to perform
    the matching transition of module Lifecycle. */
module Coordinator {
  import opened ShardCom
  import opened StartQueue
  import L = Lifecycle

  class ShardsCoordinator {
    const totalShards: nat
    /** Whether this is a debug build. */
    const debug: bool
    const startQueue: ShardsCoordinatorQueue
    /** The process table, one slot per shard id. */
    const processes: array<Option<Handle>>
    /** The status store: a list of records, one per shard id. */
    var store: seq<ShardStatus>
    /** The restart waiting list. */
    var waiting: set<int>
    /** The shared placeholder record written for a stopped shard. */
    var defaultState: ShardStatus
    var initialFillDone: bool
    /** The spawn number the next spawned process receives. */
    var nextSpawn: nat

    ghost function Abs(): L.Coord
      reads this, startQueue, processes
    {
      L.Coord(startQueue.order, waiting, processes[..], store, defaultState, initialFillDone, nextSpawn)
    }

    ghost predicate Valid()
      reads this, startQueue, processes
    {
      && startQueue.Valid()
      && processes.Length == totalShards
      && L.Inv(Abs())
    }

    /** Sets up the initial state for totalShards shards at time now (see
        Lifecycle.Initial). */
    constructor (totalShards: nat, now: int, debug: bool)
      ensures Valid() && fresh(startQueue) && fresh(processes)
      ensures this.totalShards == totalShards && this.debug == debug
      ensures Abs() == L.Initial(totalShards, now, debug)
    {
      var q := new ShardsCoordinatorQueue();
      var first := if debug then 1 else 0;
      var d := ShardStatus(0, Disconnected, 0, now);
      var records: seq<ShardStatus> := [];
      for i := 0 to totalShards
        invariant q.Valid() && q.order == L.IdRange(first, i)
        invariant records == L.StartupRecords(i, now)
        invariant d == if i == 0 then ShardStatus(0, Disconnected, 0, now) else L.StartupRecord(i - 1, now)
      {
        if i >= first {
          assert i !in q.order;
          q.Enqueue(i);
        }
        d := d.(shardId := i, time := now + StartupStagger * i);
        records := records + [d];
      }
      this.totalShards := totalShards;
      this.debug := debug;
      startQueue := q;
      processes := new Option<Handle>[totalShards](_ => None);
      store := records;
      waiting := {};
      defaultState := d;
      initialFillDone := false;
      nextSpawn := 0;
      new;
      assert processes[..] == seq(totalShards, _ => None);
      assert Abs() == L.Initial(totalShards, now, debug);
    }

    /** Spawns the worker process for shardId and returns its handle. */
    method StartShard(shardId: int) returns (h: Handle)
      modifies this
      ensures h == Handle(old(nextSpawn), shardId) && nextSpawn == old(nextSpawn) + 1
      ensures store == old(store) && waiting == old(waiting) && defaultState == old(defaultState)
      ensures initialFillDone == old(initialFillDone)
    {
      h := Handle(nextSpawn, shardId);
      nextSpawn := nextSpawn + 1;
    }

    /** Stops shardId: ok is false when shardId is outside the process table
        (the table access throws after the store write). */
    method OnStop(shardId: int) returns (ok: bool)
      requires Valid()
      modifies this, processes
      ensures Valid()
      ensures L.Step(Abs(), ok) == L.OnStop(old(Abs()), shardId)
    {
      ghost var c := Abs();
      defaultState := defaultState.(shardId := shardId);
      store := L.WriteStore(store, shardId, defaultState);
      if 0 <= shardId < processes.Length {
        processes[shardId] := None;
        ok := true;
      } else {
        ok := false;
      }
      assert L.Step(Abs(), ok) == L.OnStop(c, shardId);
    }

    /** Handles a restart request for shardId. */
    method OnRestart(shardId: int) returns (ok: bool)
      requires Valid()
      modifies this, processes
      ensures Valid()
      ensures L.Step(Abs(), ok) == L.OnRestart(old(Abs()), shardId)
    {
      ghost var c := Abs();
      ok := OnStop(shardId);
      if ok {
        var p := StartShard(shardId);
        processes[shardId] := Some(p);
      }
      assert L.Step(Abs(), ok) == L.OnRestart(c, shardId);
    }

    /** The escalation on an unhealthy report for shardId. */
    method OnShardUnavailable(shardId: int) returns (ok: bool)
      requires Valid()
      modifies this, startQueue, processes
      ensures Valid()
      ensures L.Step(Abs(), ok) == L.OnShardUnavailable(old(Abs()), shardId)
    {
      ghost var c := Abs();
      if shardId !in waiting {
        waiting := waiting + {shardId};
        ok := true;
      } else {
        ok := OnStop(shardId);
        if ok {
          startQueue.Enqueue(shardId);
          waiting := waiting - {shardId};
        }
      }
      assert L.Step(Abs(), ok) == L.OnShardUnavailable(c, shardId);
    }

    /** Handles a status report; msg is None when the payload does not decode. */
    method OnDataReceived(msg: Option<ShardStatus>) returns (ok: bool)
      requires Valid()
      modifies this, startQueue, processes
      ensures Valid()
      ensures L.Step(Abs(), ok) == L.OnDataReceived(old(Abs()), msg)
    {
      ghost var c := Abs();
      if msg.None? {
        return true;
      }
      var m := msg.value;
      store := L.WriteStore(store, m.shardId, m);
      if Unhealthy(m.state) {
        ok := OnShardUnavailable(m.shardId);
      } else {
        waiting := waiting - {m.shardId};
        ok := true;
      }
      assert L.Step(Abs(), ok) == L.OnDataReceived(c, msg);
    }

    /** One pass of the start loop. started is the shard it started, if any;
        autoRestart says the initial fill was already done, which makes the
        start an automatic restart. */
    method ThrottleStep() returns (started: Option<int>, autoRestart: bool)
      requires Valid()
      modifies this, startQueue, processes
      ensures Valid()
      ensures Abs() == L.ThrottleStep(old(Abs()))
      ensures started == if old(startQueue.order) == [] then None else Some(old(startQueue.order)[0])
      ensures autoRestart == (started.Some? && old(initialFillDone))
    {
      ghost var c := Abs();
      var ok, id := startQueue.TryDequeue();
      if ok {
        waiting := waiting - {id};
        autoRestart := initialFillDone;
        var p := StartShard(id);
        processes[id] := Some(p);
        started := Some(id);
      } else {
        initialFillDone := true;
        started, autoRestart := None, false;
      }
      assert Abs() == L.ThrottleStep(c);
    }

    /** One pass of the health loop at time now; exited holds the spawn
        numbers of the processes the operating system reports as exited. ok is false when a
        stale record names a shard outside the process table, which ends the
        pass there. */
    method Sweep(now: int, exited: set<nat>) returns (ok: bool)
      requires Valid() && initialFillDone
      modifies this, startQueue, processes
      ensures Valid()
      ensures L.Step(Abs(), ok) == L.Sweep(old(Abs()), now, exited, debug)
    {
      var statuses := L.StaleRecords(store, now);
      if statuses == [] {
        if !debug {
          EnqueueDead(exited);
        }
        ok := true;
      } else {
        ok := RestartStale(statuses, now);
      }
    }

    /** The crash check: queues every slot that is empty or holds an exited
        process, in slot order. */
    method EnqueueDead(exited: set<nat>)
      requires Valid()
      modifies startQueue
      ensures Valid()
      ensures Abs() == old(Abs()).(queue := EnqueueAll(old(startQueue.order), L.DeadSlots(processes[..], exited)))
    {
      ghost var c := Abs();
      ghost var table := processes[..];
      for i := 0 to processes.Length
        invariant startQueue.Valid()
        invariant startQueue.order == EnqueueAll(c.queue, L.DeadSlots(table[..i], exited))
      {
        L.DeadSlotsStep(c.queue, table, exited, i);
        var p := processes[i];
        if p.None? || p.value.spawn in exited {
          startQueue.Enqueue(i);
        }
      }
      assert table[..processes.Length] == table;
      L.EnqueueDeadKeepsInv(c, exited);
    }

    /** Handles the stale records in order, ending at the first whose shard
        is outside the process table. */
    method RestartStale(statuses: seq<ShardStatus>, now: int) returns (ok: bool)
      requires Valid()
      modifies this, startQueue, processes
      ensures Valid()
      ensures L.Step(Abs(), ok) == L.SweepStale(old(Abs()), statuses, now)
    {
      ghost var c := Abs();
      ok := true;
      for k := 0 to |statuses|
        invariant Valid()
        invariant L.SweepStale(Abs(), statuses[k..], now) == L.SweepStale(c, statuses, now)
      {
        ghost var before := Abs();
        ghost var rest := statuses[k..];
        assert rest[0] == statuses[k] && rest[1..] == statuses[k + 1..];
        L.SweepStaleUnfold(before, rest, now);
        ok := RestartOne(statuses[k], now);
        if !ok {
          return;
        }
      }
      assert statuses[|statuses|..] == [];
    }

    /** Handles one stale record s: stops its shard, queues it, and writes s
        back with its time moved to now plus RestartStagger seconds per shard
        then queued (the count taken after the enqueue). */
    method RestartOne(s: ShardStatus, now: int) returns (ok: bool)
      requires Valid()
      modifies this, startQueue, processes
      ensures Valid()
      ensures L.Step(Abs(), ok) == L.SweepOne(old(Abs()), s, now)
    {
      ghost var before := Abs();
      ok := OnStop(s.shardId);
      if !ok {
        return;
      }
      ghost var stopped := Abs();
      startQueue.Enqueue(s.shardId);
      var count := startQueue.Count();
      var rewritten := s.(time := now + RestartStagger * count);
      store := L.WriteStore(store, s.shardId, rewritten);
      assert processes[..] == stopped.processes;
      L.SweepOneAfterStop(before, s, now, stopped, rewritten, Abs());
    }
  }
}
