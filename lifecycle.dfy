/** The coordinator's bookkeeping as values: an abstract state and one
    function per transition (a message handler, one pass of a background
    loop). The class ShardsCoordinator is proved to perform exactly these. */
module Lifecycle {
  import opened ShardCom
  import opened StartQueue

  /** Everything the coordinator keeps: the start queue's order, the restart
      waiting list, the process table, the shard-status store, the shared
      placeholder record, the initial-fill flag and the next spawn number. */
  datatype Coord = Coord(
    queue: seq<int>,
    waiting: set<int>,
    processes: seq<Option<Handle>>,
    store: seq<ShardStatus>,
    defaultState: ShardStatus,
    initialFillDone: bool,
    nextSpawn: nat)

  /** A transition's new state, and whether it ran to its end; false means
      it stopped where the source indexes the process table out of range. */
  datatype Step = Step(next: Coord, completed: bool)

  /** What every reachable state satisfies: one store slot per process slot;
      only in-range ids, each at most once, are queued; a slot holds a
      process of its own shard with an already issued id, and no process
      sits in two slots; the placeholder says Disconnected, 0 guilds. */
  ghost predicate Inv(c: Coord) {
    && |c.store| == |c.processes|
    && NoDup(c.queue)
    && (forall k :: 0 <= k < |c.queue| ==> 0 <= c.queue[k] < |c.processes|)
    && (forall i :: 0 <= i < |c.processes| && c.processes[i].Some? ==>
          c.processes[i].value.shardId == i && c.processes[i].value.spawn < c.nextSpawn)
    && (forall i, j :: 0 <= i < j < |c.processes| && c.processes[i].Some? && c.processes[j].Some? ==>
          c.processes[i].value.spawn != c.processes[j].value.spawn)
    && c.defaultState.state == Disconnected && c.defaultState.guilds == 0
  }

  /** The ids lo, lo + 1, ..., hi - 1, in that order. */
  function IdRange(lo: int, hi: int): (r: seq<int>)
    ensures |r| == if lo <= hi then hi - lo else 0
    ensures forall k :: 0 <= k < |r| ==> r[k] == lo + k
    decreases hi - lo
  {
    if hi <= lo then [] else IdRange(lo, hi - 1) + [hi - 1]
  }

  /** The placeholder record of shard i at startup: Disconnected, no guilds,
      and a time StartupStagger * i seconds after now. */
  function StartupRecord(i: int, now: int): ShardStatus {
    ShardStatus(i, Disconnected, 0, now + StartupStagger * i)
  }

  /** The records pushed at startup for shards 0, ..., n - 1. */
  function StartupRecords(n: nat, now: int): (r: seq<ShardStatus>)
    ensures |r| == n
    ensures forall i :: 0 <= i < n ==> r[i] == StartupRecord(i, now)
  {
    if n == 0 then [] else StartupRecords(n - 1, now) + [StartupRecord(n - 1, now)]
  }

  /** The state after construction for n shards: every shard queued in id
      order (in a debug build all but shard 0), the startup records in the
      store, an empty process table, nothing on the waiting list. The shared
      placeholder is left as the last startup record (at now when n is 0). */
  function Initial(n: nat, now: int, debug: bool): (c: Coord)
    ensures Inv(c)
  {
    Coord(IdRange(if debug then 1 else 0, n), {}, seq(n, _ => None), StartupRecords(n, now),
          if n == 0 then ShardStatus(0, Disconnected, 0, now) else StartupRecord(n - 1, now),
          false, 0)
  }

  /** The slot an indexed write to a list of n records lands in: counted from
      the head for id >= 0, from the tail for a negative id, none when out of
      range (the write then fails, and the failure is not reported). */
  function StoreIndex(id: int, n: nat): (r: Option<nat>)
    ensures r.Some? <==> -(n as int) <= id < n
    ensures r.Some? ==> r.value < n && (r.value == id || r.value == n + id)
  {
    if 0 <= id < n then Some(id) else if -(n as int) <= id < 0 then Some(n + id) else None
  }

  /** The store after writing rec at index id: that one slot changes, if any. */
  function WriteStore(store: seq<ShardStatus>, id: int, rec: ShardStatus): (r: seq<ShardStatus>)
    ensures |r| == |store|
    ensures forall k :: 0 <= k < |store| ==> r[k] == (if k == id || k == |store| + id then rec else store[k])
  {
    match StoreIndex(id, |store|)
    case Some(k) => store[k := rec]
    case None => store
  }

  /** The indices of the slots that hold nothing or an exited process, in
      increasing order. */
  function DeadSlots(p: seq<Option<Handle>>, exited: set<nat>): (r: seq<int>)
    ensures forall i :: i in r <==> 0 <= i < |p| && Dead(p[i], exited)
    ensures forall a, b :: 0 <= a < b < |r| ==> r[a] < r[b]
    ensures forall a :: 0 <= a < |r| ==> 0 <= r[a] < |p|
    decreases |p|
  {
    if p == [] then []
    else DeadSlots(p[..|p| - 1], exited) + (if Dead(p[|p| - 1], exited) then [|p| - 1] else [])
  }

  /** Queueing the dead slots among the first i + 1 is queueing those among
      the first i, then slot i if it is dead. */
  lemma DeadSlotsStep(q: seq<int>, p: seq<Option<Handle>>, exited: set<nat>, i: nat)
    requires i < |p|
    ensures EnqueueAll(q, DeadSlots(p[..i + 1], exited)) ==
            if Dead(p[i], exited) then Enqueued(EnqueueAll(q, DeadSlots(p[..i], exited)), i)
            else EnqueueAll(q, DeadSlots(p[..i], exited))
  {
    var prefix := DeadSlots(p[..i], exited);
    assert p[..i + 1][..i] == p[..i];
    assert DeadSlots(p[..i + 1], exited) == prefix + (if Dead(p[i], exited) then [i] else []);
    if Dead(p[i], exited) {
      EnqueueAllSnoc(q, prefix, i);
    } else {
      assert prefix + [] == prefix;
    }
  }

  /** The records that are stale at now, in store order. */
  function StaleRecords(all: seq<ShardStatus>, now: int): (r: seq<ShardStatus>)
    ensures forall x :: x in r <==> x in all && IsStale(x, now)
    ensures |r| <= |all|
    decreases |all|
  {
    if all == [] then []
    else (if IsStale(all[0], now) then [all[0]] else []) + StaleRecords(all[1..], now)
  }

  /** Stopping shard id: the placeholder takes the id and is written to the
      store; the process slot is emptied (a failing kill is ignored). The
      store write comes before the table access, so it also happens when id
      is outside the table. */
  function OnStop(c: Coord, id: int): (r: Step)
    requires Inv(c)
    ensures Inv(r.next)
    ensures r.completed <==> 0 <= id < |c.processes|
  {
    var d := c.defaultState.(shardId := id);
    var c' := c.(defaultState := d, store := WriteStore(c.store, id, d));
    if 0 <= id < |c.processes| then Step(c'.(processes := c.processes[id := None]), true)
    else Step(c', false)
  }

  /** A restart request: stop, then at once install a freshly spawned process
      for the shard, without going through the start queue. */
  function OnRestart(c: Coord, id: int): (r: Step)
    requires Inv(c)
    ensures Inv(r.next)
    ensures r.completed <==> 0 <= id < |c.processes|
  {
    var s := OnStop(c, id);
    if !s.completed then s
    else Step(s.next.(processes := s.next.processes[id := Some(Handle(c.nextSpawn, id))],
                      nextSpawn := c.nextSpawn + 1), true)
  }

  /** An unhealthy report: the first one puts the shard on the waiting list;
      one that finds it already listed stops it, queues it and unlists it. */
  function OnShardUnavailable(c: Coord, id: int): (r: Step)
    requires Inv(c)
    ensures Inv(r.next)
    ensures r.completed <==> id !in c.waiting || 0 <= id < |c.processes|
  {
    if id !in c.waiting then Step(c.(waiting := c.waiting + {id}), true)
    else
      var s := OnStop(c, id);
      if !s.completed then s
      else Step(s.next.(queue := Enqueued(s.next.queue, id), waiting := s.next.waiting - {id}), true)
  }

  /** A status report; None stands for a payload that does not decode to a
      record, which is dropped. The record overwrites the store slot of its
      shard; a down shard goes through the escalation, any other state takes
      the shard off the waiting list. */
  function OnDataReceived(c: Coord, msg: Option<ShardStatus>): (r: Step)
    requires Inv(c)
    ensures Inv(r.next)
    ensures msg.None? ==> r == Step(c, true)
  {
    match msg
    case None => Step(c, true)
    case Some(m) =>
      var c' := c.(store := WriteStore(c.store, m.shardId, m));
      if Unhealthy(m.state) then OnShardUnavailable(c', m.shardId)
      else Step(c'.(waiting := c'.waiting - {m.shardId}), true)
  }

  /** One pass of the start loop: dequeue the front shard, take it off the
      waiting list and install a freshly spawned process in its slot (the
      slot's previous content is overwritten, not stopped); with nothing
      queued, mark the initial fill as done. */
  function ThrottleStep(c: Coord): (r: Coord)
    requires Inv(c)
    ensures Inv(r)
    ensures r.initialFillDone == (c.initialFillDone || c.queue == [])
  {
    if c.queue == [] then c.(initialFillDone := true)
    else
      var id := c.queue[0];
      c.(queue := c.queue[1..], waiting := c.waiting - {id},
         processes := c.processes[id := Some(Handle(c.nextSpawn, id))], nextSpawn := c.nextSpawn + 1)
  }

  /** The staleness sweep's handling of one stale record s: stop its shard,
      queue it, and write s back with its time moved to now plus
      RestartStagger seconds per shard then queued. */
  function SweepOne(c: Coord, s: ShardStatus, now: int): (r: Step)
    requires Inv(c)
    ensures Inv(r.next)
    ensures r.completed <==> 0 <= s.shardId < |c.processes|
  {
    var st := OnStop(c, s.shardId);
    if !st.completed then st
    else
      var q := Enqueued(st.next.queue, s.shardId);
      Step(st.next.(queue := q,
                    store := WriteStore(st.next.store, s.shardId, s.(time := now + RestartStagger * |q|))), true)
  }

  /** SweepOne in terms of the state its stop leaves. */
  lemma SweepOneAfterStop(c: Coord, s: ShardStatus, now: int, stopped: Coord, rewritten: ShardStatus, next: Coord)
    requires Inv(c) && OnStop(c, s.shardId) == Step(stopped, true)
    requires next.queue == Enqueued(stopped.queue, s.shardId)
    requires rewritten == s.(time := now + RestartStagger * |next.queue|)
    requires next.store == WriteStore(stopped.store, s.shardId, rewritten)
    requires next.waiting == stopped.waiting && next.processes == stopped.processes
    requires next.defaultState == stopped.defaultState && next.initialFillDone == stopped.initialFillDone
    requires next.nextSpawn == stopped.nextSpawn
    ensures SweepOne(c, s, now) == Step(next, true)
  {
  }

  /** The sweep over the stale records, in order, stopping at the first that
      fails. */
  function SweepStale(c: Coord, recs: seq<ShardStatus>, now: int): (r: Step)
    requires Inv(c)
    ensures Inv(r.next)
    decreases |recs|
  {
    if recs == [] then Step(c, true)
    else
      var st := SweepOne(c, recs[0], now);
      if !st.completed then st
      else
        SweepStale(st.next, recs[1..], now)
  }

  /** SweepStale on a non-empty list: the first record, then the rest. */
  lemma SweepStaleUnfold(c: Coord, recs: seq<ShardStatus>, now: int)
    requires Inv(c) && recs != []
    ensures var st := SweepOne(c, recs[0], now);
            SweepStale(c, recs, now) == if st.completed then SweepStale(st.next, recs[1..], now) else st
  {
  }

  /** One pass of the health loop, which runs once the initial fill is done.
      Without stale records, every empty or exited process slot is queued
      (skipped in a debug build); otherwise every stale record is handled. */
  function Sweep(c: Coord, now: int, exited: set<nat>, debug: bool): (r: Step)
    requires Inv(c) && c.initialFillDone
    ensures Inv(r.next)
  {
    var stale := StaleRecords(c.store, now);
    if stale == [] then
      if debug then Step(c, true)
      else
        var dead := DeadSlots(c.processes, exited);
        var q := EnqueueAll(c.queue, dead);
        EnqueueDeadKeepsInv(c, exited);
        Step(c.(queue := q), true)
    else SweepStale(c, stale, now)
  }

  /** Queueing the dead slots keeps the invariant. */
  lemma EnqueueDeadKeepsInv(c: Coord, exited: set<nat>)
    requires Inv(c)
    ensures Inv(c.(queue := EnqueueAll(c.queue, DeadSlots(c.processes, exited))))
  {
    var dead := DeadSlots(c.processes, exited);
    var q := EnqueueAll(c.queue, dead);
    EnqueueAllFacts(c.queue, dead);
    forall k | 0 <= k < |q| ensures 0 <= q[k] < |c.processes| {
      var y := q[k];
      assert y in q;
      if y in c.queue {
        var j :| 0 <= j < |c.queue| && c.queue[j] == y;
      }
    }
  }
}
