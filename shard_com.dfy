/** The values the coordinator and its shards exchange: the status record a
    shard publishes and the coordinator keeps per shard, and the handle of a
    spawned shard process. Times are whole seconds. */
module ShardCom {

  datatype Option<T> = None | Some(value: T)

  /** The connection states a shard can report. */
  datatype ConnectionState = Disconnected | Connecting | Connected | Disconnecting

  /** One shard status record (a ShardComMessage): which shard, its
      connection state, how many guilds it serves, and when it was written. */
  datatype ShardStatus = ShardStatus(shardId: int, state: ConnectionState, guilds: int, time: int)

  /** A report in which the shard is down or going down. */
  predicate Unhealthy(s: ConnectionState) {
    s == Disconnected || s == Disconnecting
  }

  /** Seconds after which a record counts as stale. */
  const StaleAfter: int := 30

  /** Seconds by which the initial record of shard i is pushed into the future, per i. */
  const StartupStagger: int := 20

  /** Seconds by which a stale shard's record is pushed forward, per queued shard. */
  const RestartStagger: int := 30

  /** A record whose time lies more than StaleAfter seconds before now. */
  predicate IsStale(r: ShardStatus, now: int) {
    r.time < now - StaleAfter
  }

  /** The coordinator's handle on one spawned shard process (the source's
      Process object): a spawn number, which tells this spawn apart from every
      other one, and the shard id it was started with. */
  datatype Handle = Handle(spawn: nat, shardId: int)

  /** A process slot that the crash check treats as needing a start: empty, or
      holding a process that the operating system reports as exited (exited
      holds the spawn numbers of those processes). */
  predicate Dead(slot: Option<Handle>, exited: set<nat>) {
    slot.None? || slot.value.spawn in exited
  }
}
