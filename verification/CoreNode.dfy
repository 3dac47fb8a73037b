/**
 The replication side of a node: its Lamport clocks per network, its replica buffer, and
 its reaction to gossip. The clock and the buffer of a network move exactly as the network
 models describe.
 */
module CoreNode {
  import opened Wrappers
  import opened U64
  import opened Entries
  import opened ReplicaBuffer
  import EventualNet
  import Gossip
  import ShardState

  datatype ReplConfigData = ReplConfigData(lamportClock: u64, lastClock: u64)

  /** What a node sends in reaction to a gossip text. */
  datatype Reaction =
    | Nothing
    | Broadcast(message: Gossip.Message)
    | Pull(peer: string, network: string, ids: seq<string>)
    | ShardChange(message: Gossip.Message)
    | ToApplication(parts: seq<string>)
    | Crash

  class Core {
    const peerId: PeerId
    const replicaBuffer: ReplicaBufferQueue
    var state: map<string, ReplConfigData>
    ghost var consumed: map<string, seq<Entry>>   // history: what the application has read

    ghost predicate Valid()
      reads this, replicaBuffer
    {
      replicaBuffer.Valid()
    }

    /** The part of the node that belongs to one network, as the network model sees it. */
    ghost function ReplicaOf(network: string): EventualNet.Replica
      requires network in state
      reads this, replicaBuffer
    {
      EventualNet.Replica(state[network].lamportClock, state[network].lastClock,
                          replicaBuffer.NodeOf(network).queue,
                          if network in consumed then consumed[network] else [])
    }

    constructor (peerId: PeerId, config: ReplNetworkConfig)
      requires config.Capacity() >= 1
      ensures Valid() && fresh(replicaBuffer)
      ensures this.peerId == peerId && state == map[] && consumed == map[] && replicaBuffer.config == config
    {
      this.peerId := peerId;
      replicaBuffer := new ReplicaBufferQueue(config);
      state, consumed := map[], map[];
    }

    /** Joining keeps the clocks of a network that was joined before, but not its buffer. */
    method JoinReplNetwork(network: string)
      requires Valid()
      modifies this`state, replicaBuffer
      ensures Valid()
      ensures state == if network in old(state) then old(state) else old(state)[network := ReplConfigData(0, 0)]
      ensures replicaBuffer.queue == old(replicaBuffer.queue)[network := []]
      ensures replicaBuffer.NodeOf(network).queue == []
      ensures replicaBuffer.config.Consistency().Strong? ==> replicaBuffer.NodeOf(network).temp == map[]
      ensures forall n | n != network :: replicaBuffer.NodeOf(n) == old(replicaBuffer.NodeOf(n))
    {
      if network !in state {
        state := state[network := ReplConfigData(0, 0)];
      }
      replicaBuffer.Init(network);
    }

    /** Joining a shard: the shard map, then the replica network of the shard, then the
        announcement. Without a network id nothing happens. */
    method JoinShardNetwork(sharding: ShardState.ShardingInfo, shard: string) returns (announcement: Option<Gossip.Message>)
      requires Valid() && sharding.peerId == peerId
      modifies sharding`state, this`state, replicaBuffer
      ensures Valid()
      ensures sharding.id == "" ==>
        && announcement == None && sharding.state == old(sharding.state) && state == old(state)
        && replicaBuffer.queue == old(replicaBuffer.queue) && replicaBuffer.temporaryQueue == old(replicaBuffer.temporaryQueue)
      ensures sharding.id != "" ==>
        && announcement == Some(Gossip.ShardJoin(peerId, shard))
        && sharding.state == ShardState.Joined(old(sharding.state), peerId, shard)
        && state == (if shard in old(state) then old(state) else old(state)[shard := ReplConfigData(0, 0)])
        && replicaBuffer.queue == old(replicaBuffer.queue)[shard := []]
        && (replicaBuffer.config.Consistency().Strong? ==> replicaBuffer.NodeOf(shard).temp == map[])
        && forall n | n != shard :: replicaBuffer.NodeOf(n) == old(replicaBuffer.NodeOf(n))
    {
      announcement := sharding.JoinNetwork(shard);
      if announcement.Some? {
        JoinReplNetwork(shard);
      }
    }

    /** Publishing: the clock moves first, and the message carries the new clock. */
    method Replicate(network: string, data: seq<string>, now: u64) returns (r: Result<Gossip.Message, NetworkError>)
      requires Valid()
      modifies this`state
      ensures Valid()
      ensures network !in old(state) ==> r == Err(MissingReplNetwork) && state == old(state)
      ensures network in old(state) ==>
        && state.Keys == old(state.Keys)
        && ReplicaOf(network) == EventualNet.Sending(old(ReplicaOf(network)))
        && state[network] == old(state)[network].(lamportClock := SaturatingAdd(old(state)[network].lamportClock, 1))
        && (forall n | n in state && n != network :: state[n] == old(state)[n])
        && r == Ok(Gossip.Replicated(now, ReplicaOf(network).lamportClock, network, data))
    {
      if network !in state {
        return Err(MissingReplNetwork);
      }
      var entry := state[network];
      entry := entry.(lamportClock := SaturatingAdd(entry.lamportClock, 1));
      state := state[network := entry];
      return Ok(Gossip.Replicated(now, entry.lamportClock, network, data));
    }

    /** Accepting a replicated message. A network that was not joined is ignored. */
    method HandleIncomingReplData(network: string, e: Entry, replicaPeers: u64, now: u64)
      returns (gossip: Option<Gossip.Message>)
      requires Valid()
      requires replicaBuffer.config.Consistency().Strong? ==> e.confirmations.Some?
      modifies this`state, replicaBuffer
      ensures Valid()
      ensures network !in old(state) ==>
        gossip == None && state == old(state)
        && replicaBuffer.queue == old(replicaBuffer.queue) && replicaBuffer.temporaryQueue == old(replicaBuffer.temporaryQueue)
      ensures network in old(state) ==>
        && state == old(state)[network := old(state)[network].(lamportClock :=
             SaturatingAdd(Max(old(state)[network].lamportClock, e.lamportClock), 1))]
      ensures forall n | n != network :: replicaBuffer.NodeOf(n) == old(replicaBuffer.NodeOf(n))
      ensures network in old(state) && replicaBuffer.config.Consistency() == Eventual ==>
        && gossip == None
        && ReplicaOf(network) == EventualNet.Receipt(old(ReplicaOf(network)), e, replicaBuffer.config, now)
      ensures network in old(state) && replicaBuffer.config.Consistency().Strong? ==>
        var consensus := replicaBuffer.config.Consistency().consensus;
        && gossip == (if Direct(consensus, replicaPeers) then None else Some(Gossip.Confirmation(network, e.messageId)))
        && replicaBuffer.NodeOf(network) == PushStrong(old(replicaBuffer.NodeOf(network)), consensus, replicaPeers, e)
    {
      gossip := None;
      if network in state {
        var entry := state[network];
        state := state[network := entry.(lamportClock := SaturatingAdd(Max(entry.lamportClock, e.lamportClock), 1))];
        gossip := replicaBuffer.Push(network, e, replicaPeers, now);
      }
    }

    /** Handing the earliest entry to the application; its clock is remembered, also for a
        network without clocks. */
    method ConsumeReplData(network: string) returns (first: Option<Entry>)
      requires Valid()
      modifies this`state, this`consumed, replicaBuffer`queue
      ensures Valid()
      ensures old(replicaBuffer.NodeOf(network)).queue == [] ==>
        first == None && state == old(state) && consumed == old(consumed) && replicaBuffer.queue == old(replicaBuffer.queue)
      ensures old(replicaBuffer.NodeOf(network)).queue != [] ==>
        && first == Some(old(replicaBuffer.NodeOf(network)).queue[0])
        && network in replicaBuffer.queue
        && (forall e | e in replicaBuffer.queue[network] :: KeyLess(first.value, e))
        && network in state && state[network].lastClock == first.value.lamportClock
        && state == old(state)[network := state[network]]
        && ReplicaOf(network) ==
             if network in old(state) then EventualNet.Consumption(old(ReplicaOf(network)))
             else EventualNet.Consumption(EventualNet.Replica(0, 0, old(replicaBuffer.NodeOf(network)).queue,
                                            if network in old(consumed) then old(consumed)[network] else []))
      ensures forall n | n != network :: replicaBuffer.NodeOf(n) == old(replicaBuffer.NodeOf(n))
    {
      first := replicaBuffer.PopFront(network);
      if first.Some? {
        if network !in state {
          state := state[network := ReplConfigData(0, first.value.lamportClock)];
        }
        state := state[network := state[network].(lastClock := first.value.lamportClock)];
        consumed := consumed[network := (if network in consumed then consumed[network] else []) + [first.value]];
      }
    }

    /** The event loop's reaction to a gossip text with the given id and source. */
    method HandleGossip(text: string, id: string, source: PeerId, replicaPeers: u64, now: u64)
      returns (reaction: Reaction)
      requires Valid()
      modifies this`state, replicaBuffer
      ensures Valid()
      ensures match Gossip.Decode(text)
        case Application(parts) => reaction == ToApplication(parts)
        case Ignored => reaction == Nothing
        case IndexPanic => reaction == Crash
        case Protocol(Replicated(timestamp, clock, network, data)) =>
          var e := Entry(data, clock, timestamp, now, id, source,
                         if replicaBuffer.config.Consistency() == Eventual then None else Some(1));
          && (forall n | n != network :: replicaBuffer.NodeOf(n) == old(replicaBuffer.NodeOf(n)))
          && (network !in old(state) ==>
                reaction == Nothing && state == old(state) && replicaBuffer.NodeOf(network) == old(replicaBuffer.NodeOf(network)))
          && (network in old(state) ==>
                state == old(state)[network := old(state)[network].(lamportClock :=
                  SaturatingAdd(Max(old(state)[network].lamportClock, clock), 1))])
          && (network in old(state) && replicaBuffer.config.Consistency() == Eventual ==>
                reaction == Nothing && network in state &&
                ReplicaOf(network) == EventualNet.Receipt(old(ReplicaOf(network)), e, replicaBuffer.config, now))
          && (network in old(state) && replicaBuffer.config.Consistency().Strong? ==>
                var consensus := replicaBuffer.config.Consistency().consensus;
                && reaction == (if Direct(consensus, replicaPeers) then Nothing
                                else Broadcast(Gossip.Confirmation(network, id)))
                && replicaBuffer.NodeOf(network) == PushStrong(old(replicaBuffer.NodeOf(network)), consensus, replicaPeers, e))
        case Protocol(Confirmation(network, message)) =>
          var node := old(replicaBuffer.NodeOf(network));
          var peersCount := replicaBuffer.config.PeersCount(replicaPeers);
          var counted := node.(temp := Counted(node.temp, message, peersCount));
          && reaction == Nothing && state == old(state)
          && (forall n | n != network :: replicaBuffer.NodeOf(n) == old(replicaBuffer.NodeOf(n)))
          && replicaBuffer.NodeOf(network) ==
               if Confirmed(counted.temp, message, peersCount)
               then Released(counted, message, replicaBuffer.config, now) else counted
        case Protocol(Advertisement(advertiser, network, minClock, maxClock, ids)) =>
          && state == old(state) && replicaBuffer.queue == old(replicaBuffer.queue)
          && replicaBuffer.temporaryQueue == old(replicaBuffer.temporaryQueue)
          && var request := if network !in old(replicaBuffer.queue) then None
               else SyncRequest(peerId, old(replicaBuffer.queue)[network],
                                if network in old(state) then Some(old(state)[network].lastClock) else None,
                                advertiser, minClock, maxClock, ids);
             reaction == if request.None? then Nothing else Pull(advertiser, network, request.value)
        case Protocol(m) =>
          reaction == ShardChange(m) && state == old(state) && replicaBuffer.queue == old(replicaBuffer.queue)
          && replicaBuffer.temporaryQueue == old(replicaBuffer.temporaryQueue)
    {
      reaction := Nothing;
      match Gossip.Decode(text) {
        case Application(parts) => reaction := ToApplication(parts);
        case Ignored =>
        case IndexPanic => reaction := Crash;
        case Protocol(Replicated(timestamp, clock, network, data)) =>
          var count := if replicaBuffer.config.Consistency() == Eventual then None else Some(1);
          var e := Entry(data, clock, timestamp, now, id, source, count);
          var gossip := HandleIncomingReplData(network, e, replicaPeers, now);
          if gossip.Some? {
            reaction := Broadcast(gossip.value);
          }
        case Protocol(Confirmation(network, message)) =>
          replicaBuffer.HandleDataConfirmation(network, message, replicaPeers, now);
        case Protocol(Advertisement(advertiser, network, minClock, maxClock, ids)) =>
          var lastClock := if network in state then Some(state[network].lastClock) else None;
          var request := replicaBuffer.PrepareSync(peerId, network, lastClock, advertiser, minClock, maxClock, ids);
          if request.Some? {
            reaction := Pull(advertiser, network, request.value);
          }
        case Protocol(m) => reaction := ShardChange(m);
      }
    }
  }
}
