/**
 What a node does is a step of the network models: the methods of the node, given the text that
 the network carries, leave the node as the corresponding step leaves it.
 */
module NodeSteps {
  import opened Wrappers
  import opened U64
  import opened Framing
  import opened Entries
  import opened ReplicaBuffer
  import opened AntiEntropy
  import opened CoreNode
  import Codec
  import EventualNet
  import Gossip
  import ShardNet
  import ShardState
  import StrongNet

  // ---- Strong consistency ----------------------------------------------------------

  /** The node is member `p` of the strongly consistent network. */
  ghost predicate IsMember(node: Core, network: string, par: StrongNet.Params, s: StrongNet.Net, p: PeerId)
    reads node, node.replicaBuffer
  {
    && node.Valid() && network in node.state && node.replicaBuffer.config == par.config
    && StrongNet.ValidParams(par) && Closed(network, Gossip.SEPARATOR)
    && p in s.nodes && node.replicaBuffer.NodeOf(network) == s.nodes[p]
  }

  /** A message arrives: the node stages it with a count of one and confirms it, as in the model. */
  method AcceptCopy(node: Core, network: string, ghost par: StrongNet.Params, ghost s: StrongNet.Net, c: StrongNet.Copy,
                    m: Publication, replicaPeers: u64, now: u64)
    returns (reaction: Reaction)
    requires IsMember(node, network, par, s, c.at) && replicaPeers == |par.members| - 1
    requires c.id in s.published && s.published[c.id] == m && ValidMessageId(c.id)
    modifies node`state, node.replicaBuffer
    ensures IsMember(node, network, par, StrongNet.DoAccept(par, s, c, now), c.at)
    ensures var direct := replicaPeers == 1 || par.config.Consistency().consensus == MinPeers(1);
      && reaction == (if direct then Nothing else Broadcast(Gossip.Confirmation(network, c.id)))
      && (!direct ==>
            && c.id in node.replicaBuffer.NodeOf(network).temp
            && node.replicaBuffer.NodeOf(network).temp[c.id] ==
                 Entry(Gossip.ArrivedData(m.data), m.clock, m.timestamp, now, c.id, m.publisher, Some(1)))
  {
    var text := Gossip.Framed(Gossip.Replicated(m.timestamp, m.clock, network, m.data));
    Gossip.ReplicatedArrives(m.timestamp, m.clock, network, m.data);
    reaction := node.HandleGossip(text, c.id, m.publisher, replicaPeers, now);
  }

  /** A confirmation arrives: it is counted, and the entry is moved if that completes the count. */
  method HearConfirm(node: Core, network: string, ghost par: StrongNet.Params, ghost s: StrongNet.Net, f: StrongNet.Confirm,
                     id: string, replicaPeers: u64, now: u64)
    returns (reaction: Reaction)
    requires IsMember(node, network, par, s, f.to) && replicaPeers == |par.members| - 1
    requires f !in s.moving && ValidMessageId(f.id)
    modifies node`state, node.replicaBuffer
    ensures reaction == Nothing
    ensures var t := StrongNet.DoHear(par, s, f);
      IsMember(node, network, par, if f in t.moving then StrongNet.DoMove(par, t, f, now) else t, f.to)
  {
    var text := Gossip.Framed(Gossip.Confirmation(network, f.id));
    StrongNet.ConfirmationTravels(network, f.id);
    reaction := node.HandleGossip(text, id, f.from, replicaPeers, now);
  }

  /** The application takes the next entry. */
  method ConsumePublic(node: Core, network: string, ghost par: StrongNet.Params, ghost s: StrongNet.Net, p: PeerId)
    returns (first: Option<Entry>)
    requires IsMember(node, network, par, s, p) && p in s.consumed && s.nodes[p].queue != []
    modifies node`state, node`consumed, node.replicaBuffer`queue
    ensures IsMember(node, network, par, StrongNet.DoConsume(s, p), p)
    ensures first.Some? && StrongNet.DoConsume(s, p).consumed[p] == s.consumed[p] + [first.value]
  {
    first := node.ConsumeReplData(network);
  }

  // ---- Eventual consistency --------------------------------------------------------

  /** The node is replica `p` of the eventually consistent network. */
  ghost predicate IsReplica(node: Core, par: EventualNet.Params, s: EventualNet.Net, p: PeerId)
    reads node, node.replicaBuffer
  {
    && node.Valid() && node.peerId == p && par.network in node.state && par.network in node.replicaBuffer.queue
    && node.replicaBuffer.config == par.config && EventualNet.ValidParams(par)
    && p in s.nodes && node.ReplicaOf(par.network) == s.nodes[p]
  }

  /** The node publishes: its clock moves, and the text it sends is the one in the model. */
  method PublishMessage(node: Core, ghost par: EventualNet.Params, ghost s: EventualNet.Net, network: string, id: string,
                        timestamp: u64, data: seq<string>)
    returns (r: Result<Gossip.Message, NetworkError>)
    requires IsReplica(node, par, s, node.peerId) && network == par.network && id !in s.published
    modifies node`state
    ensures IsReplica(node, par, EventualNet.DoPublish(par, s, node.peerId, id, timestamp, data), node.peerId)
    ensures r.Ok? && Gossip.Framed(r.value) ==
      EventualNet.PublicationFrame(par, EventualNet.DoPublish(par, s, node.peerId, id, timestamp, data).published[id])
  {
    r := node.Replicate(network, data, timestamp);
  }

  /** A message arrives. */
  method ReceivePacket(node: Core, ghost par: EventualNet.Params, ghost s: EventualNet.Net, k: EventualNet.Packet,
                       ghost m: Publication, replicaPeers: u64, now: u64)
    returns (reaction: Reaction)
    requires IsReplica(node, par, s, k.to) && k.text == EventualNet.PublicationFrame(par, m)
    modifies node`state, node.replicaBuffer
    ensures IsReplica(node, par, EventualNet.DoReceive(par, s, k, now), k.to) && reaction == Nothing
  {
    Gossip.ReplicatedArrives(m.timestamp, m.clock, par.network, m.data);
    reaction := node.HandleGossip(k.text, k.id, k.source, replicaPeers, now);
  }

  method ConsumeEntry(node: Core, ghost par: EventualNet.Params, ghost s: EventualNet.Net, network: string)
    returns (first: Option<Entry>)
    requires IsReplica(node, par, s, node.peerId) && network == par.network && s.nodes[node.peerId].queue != []
    modifies node`state, node`consumed, node.replicaBuffer`queue
    ensures IsReplica(node, par, EventualNet.DoConsume(s, node.peerId), node.peerId)
    ensures first == Some(s.nodes[node.peerId].queue[0])
  {
    first := node.ConsumeReplData(network);
  }

  /** The text a node advertises with is the one that the model sends to every other member. */
  method AdvertiseBuffer(node: Core, ghost par: EventualNet.Params, ghost s: EventualNet.Net, network: string, now: u64)
    returns (gossip: Option<Gossip.Message>)
    requires IsReplica(node, par, s, node.peerId) && network == par.network
    ensures gossip.Some?
    ensures var t := EventualNet.DoAdvertise(par, s, node.peerId, now);
      forall q | q in par.members && q != node.peerId ::
        exists ad :: ad in t.ads && ad.to == q && ad.from == node.peerId && ad.text == Gossip.Framed(gossip.value)
  {
    gossip := node.replicaBuffer.Advertise(network, node.peerId, now);
    ghost var local := Aged(s.nodes[node.peerId].queue, par.config.AgingPeriod(), now);
    ghost var t := EventualNet.DoAdvertise(par, s, node.peerId, now);
    forall q | q in par.members && q != node.peerId
      ensures exists ad :: ad in t.ads && ad.to == q && ad.from == node.peerId && ad.text == Gossip.Framed(gossip.value)
    {
      assert EventualNet.Ad(q, node.peerId, Gossip.Framed(gossip.value), local) in t.ads;
    }
  }

  /** The reaction to an advertisement is the request of the model. */
  method CompareAd(node: Core, ghost par: EventualNet.Params, ghost s: EventualNet.Net, ad: EventualNet.Ad, id: string,
                   replicaPeers: u64, now: u64)
    returns (reaction: Reaction)
    requires IsReplica(node, par, s, ad.to) && EventualNet.PublishedInv(par, s) && EventualNet.AdOk(par, s, ad)
    modifies node`state, node.replicaBuffer
    ensures IsReplica(node, par, EventualNet.DoCompare(par, s, ad), ad.to)
    ensures reaction ==
      if EventualNet.Overtaken(s, ad) || EventualNet.Wanted(par, s, ad) == [] then Nothing
      else Pull(ad.from, par.network, EventualNet.Wanted(par, s, ad))
  {
    EventualNet.AdArrives(par, s, ad);
    EventualNet.RequestOf(par, s, ad);
    EventualNet.CompareResult(par, s, ad);
    reaction := node.HandleGossip(ad.text, id, ad.from, replicaPeers, now);
  }

  /** The answer to a request is the response of the model. */
  method ServeRequest(node: Core, ghost par: EventualNet.Params, ghost s: EventualNet.Net, network: string, r: EventualNet.Request)
    returns (blobs: seq<string>)
    requires IsReplica(node, par, s, r.to) && network == par.network && r.ids != []
    ensures EventualNet.Response(r.from, r.to, blobs) in EventualNet.DoServe(s, r).responses
  {
    blobs := node.replicaBuffer.PullMissingData(network, r.ids);
  }

  method AbsorbResponse(node: Core, ghost par: EventualNet.Params, ghost s: EventualNet.Net, network: string, r: EventualNet.Response)
    requires IsReplica(node, par, s, r.to) && network == par.network
    modifies node.replicaBuffer`queue
    ensures IsReplica(node, par, EventualNet.DoAbsorb(s, r), r.to)
  {
    node.replicaBuffer.InsertResponse(network, r.blobs);
  }

  // ---- Sharding --------------------------------------------------------------------

  /** The node is the one with the given map in the sharded network. */
  ghost predicate IsSharded(sharding: ShardState.ShardingInfo, s: ShardNet.Net, p: PeerId)
    reads sharding
  {
    sharding.peerId == p && p in s.maps && sharding.state == s.maps[p]
  }

  /** The gossip of a join or an exit changes the map as in the model. */
  method HearShardMessage(sharding: ShardState.ShardingInfo, text: string)
    modifies sharding`state
    ensures sharding.state ==
      match Gossip.Decode(text)
      case Protocol(ShardJoin(peer, shard)) => ShardState.Joined(old(sharding.state), peer, shard)
      case Protocol(ShardExit(peer, shard)) => ShardState.Exited(old(sharding.state), peer, shard)
      case _ => old(sharding.state)
  {
    match Gossip.Decode(text) {
      case Protocol(ShardJoin(peer, shard)) => sharding.UpdateShardState(peer, shard, true);
      case Protocol(ShardExit(peer, shard)) => sharding.UpdateShardState(peer, shard, false);
      case _ =>
    }
  }

  method HearJoin(sharding: ShardState.ShardingInfo, ghost s: ShardNet.Net, n: ShardNet.Note)
    requires IsSharded(sharding, s, n.to) && n in s.updates
    modifies sharding`state
    ensures IsSharded(sharding, ShardNet.Step(s, ShardNet.Update(n)), n.to)
  {
    HearShardMessage(sharding, Gossip.Framed(Gossip.ShardJoin(n.join.peer, n.join.shard)));
  }

  method HearExit(sharding: ShardState.ShardingInfo, ghost s: ShardNet.Net, f: ShardNet.Farewell)
    requires IsSharded(sharding, s, f.to) && f in s.farewells
    modifies sharding`state
    ensures IsSharded(sharding, ShardNet.Step(s, ShardNet.Forget(f)), f.to)
  {
    HearShardMessage(sharding, Gossip.Framed(Gossip.ShardExit(f.exit.peer, f.exit.shard)));
    Gossip.ExitReadAsExit(f.exit.peer, f.exit.shard);
  }

  method MergeImage(sharding: ShardState.ShardingInfo, ghost s: ShardNet.Net, i: ShardNet.Image)
    requires IsSharded(sharding, s, i.task.join.peer) && i in s.images
    modifies sharding`state
    ensures IsSharded(sharding, ShardNet.Step(s, ShardNet.Merge(i)), i.task.join.peer)
  {
    sharding.MergeShardStates(i.shards);
  }

  /** Joining and exiting enter and remove the node itself, and announce exactly that. */
  method StartJoin(sharding: ShardState.ShardingInfo, ghost s: ShardNet.Net, j: ShardNet.Join)
    returns (announcement: Option<Gossip.Message>)
    requires IsSharded(sharding, s, j.peer) && sharding.id != "" && ShardNet.Enabled(s, ShardNet.Start(j))
    modifies sharding`state
    ensures IsSharded(sharding, ShardNet.Step(s, ShardNet.Start(j)), j.peer)
    ensures announcement == Some(Gossip.ShardJoin(j.peer, j.shard))
  {
    announcement := sharding.JoinNetwork(j.shard);
  }

  method LeaveShard(sharding: ShardState.ShardingInfo, ghost s: ShardNet.Net, x: ShardNet.Exit)
    returns (announcement: Gossip.Message)
    requires IsSharded(sharding, s, x.peer) && ShardNet.Enabled(s, ShardNet.Leave(x))
    modifies sharding`state
    ensures IsSharded(sharding, ShardNet.Step(s, ShardNet.Leave(x)), x.peer)
    ensures announcement == Gossip.ShardExit(x.peer, x.shard)
  {
    var rejoins;
    announcement, rejoins := sharding.ExitNetwork(x.shard);
  }
}
