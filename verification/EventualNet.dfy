/**
 Eventual consistency over a whole network: publishing, receiving, advertising, comparing,
 serving, absorbing and consuming interleave in any order, and every message travels as
 the text that the codecs produce. Delivery is at most once and never to the sender.
 */
module EventualNet {
  import opened Wrappers
  import opened U64
  import opened Framing
  import opened Entries
  import opened OrderedBuffer
  import opened Eviction
  import opened ReplicaBuffer
  import opened AntiEntropy
  import Codec
  import Gossip

  datatype Params = Params(members: set<PeerId>, network: string, config: ReplNetworkConfig)

  ghost predicate ValidParams(par: Params) {
    && par.config.Consistency() == Eventual
    && par.config.Capacity() >= 1
    && Closed(par.network, Gossip.SEPARATOR)
  }

  datatype Replica = Replica(lamportClock: u64, lastClock: u64, queue: seq<Entry>, consumed: seq<Entry>)

  /** A node's clock when it publishes. */
  function Sending(node: Replica): Replica {
    node.(lamportClock := SaturatingAdd(node.lamportClock, 1))
  }

  /** Accepting a replicated message moves the clock past the message's and buffers it. */
  function Receipt(node: Replica, e: Entry, config: ReplNetworkConfig, now: u64): Replica
    requires config.Capacity() >= 1
  {
    node.(lamportClock := SaturatingAdd(Max(node.lamportClock, e.lamportClock), 1),
          queue := PushEventual(node.queue, e, config, now))
  }

  /** Handing the earliest entry to the application. */
  function Consumption(node: Replica): Replica
    requires node.queue != []
  {
    node.(queue := node.queue[1..], consumed := node.consumed + [node.queue[0]],
          lastClock := node.queue[0].lamportClock)
  }

  /** A replicated message on its way: its gossip id and source, and its text. */
  datatype Packet = Packet(to: PeerId, id: string, source: PeerId, text: string)

  /** An advertisement on its way, with the entries it was made from as history. */
  datatype Ad = Ad(to: PeerId, from: PeerId, text: string, local: seq<Entry>)

  datatype Request = Request(to: PeerId, from: PeerId, ids: seq<string>)

  datatype Response = Response(to: PeerId, from: PeerId, blobs: seq<string>)

  /** The advertisement of `from` has been dealt with by `to`. */
  datatype Pair = Pair(from: PeerId, to: PeerId)

  /** A step of a Lamport clock, with the clock after it. */
  datatype Event =
    | Sent(node: PeerId, id: string, stamp: u64)
    | Handled(node: PeerId, id: string, stamp: u64)

  datatype Net = Net(
    nodes: map<PeerId, Replica>,
    published: map<string, Publication>,
    packets: set<Packet>,
    ads: set<Ad>,
    requests: set<Request>,
    responses: set<Response>,
    synced: set<Pair>,     // history: completed exchanges
    trace: seq<Event>)     // history: clock events in order

  datatype Action =
    | Publish(publisher: PeerId, id: string, timestamp: u64, data: seq<string>)
    | Receive(packet: Packet, now: u64)
    | Consume(node: PeerId)
    | Advertise(node: PeerId, now: u64)
    | Compare(ad: Ad)
    | Serve(request: Request)
    | Absorb(response: Response)

  function Init(par: Params): Net {
    Net(map p | p in par.members :: Replica(0, 0, [], []), map[], {}, {}, {}, {}, {}, [])
  }

  /** The data does not collide with the delimiters of the gossip frame and of the pull
      response. */
  predicate WireSafe(network: string, id: string, data: seq<string>) {
    && Separable([network] + data, Gossip.SEPARATOR)
    && Codec.Clean(Entry(data, 0, 0, 0, id, SOMEONE, None))
  }

  /** It is exactly the data that arrives unchanged in a message and in a response, whoever sent
      it, whatever the clock and the times. */
  lemma WireSafeExactly(network: string, id: string, data: seq<string>, clock: u64, timestamp: u64, now: u64, source: PeerId)
    ensures var m := Gossip.Replicated(timestamp, clock, network, data);
      var e := Entry(data, clock, timestamp, now, id, source, None);
      WireSafe(network, id, data) <==>
        Gossip.Decode(Gossip.Framed(m)) == Gossip.Protocol(m) && Codec.Unmarshalled([Codec.Marshalled([e])]) == [e]
  {
    var e := Entry(data, clock, timestamp, now, id, source, None);
    Gossip.ReplicatedDecodes(timestamp, clock, network, data);
    Codec.RoundTrip([e]);
    assert Codec.Unconfirmed([e]) == [e];
    assert Codec.Clean(e) <==> Codec.Clean(Entry(data, 0, 0, 0, id, SOMEONE, None));
    assert forall x | x in [e] :: x == e;
    assert [e][0] == e;
  }

  ghost predicate Enabled(par: Params, s: Net, a: Action) {
    match a
    case Publish(p, id, _, _) => p in s.nodes && id !in s.published && ValidMessageId(id)
    case Receive(packet, _) => packet in s.packets && packet.to in s.nodes
    case Consume(p) => p in s.nodes && s.nodes[p].queue != []
    case Advertise(p, _) => p in s.nodes
    case Compare(ad) => ad in s.ads && ad.to in s.nodes
    case Serve(r) => r in s.requests && r.to in s.nodes && r.ids != []
    case Absorb(r) => r in s.responses && r.to in s.nodes
  }

  function PublicationFrame(par: Params, m: Publication): string {
    Gossip.Framed(Gossip.Replicated(m.timestamp, m.clock, par.network, m.data))
  }

  ghost function DoPublish(par: Params, s: Net, p: PeerId, id: string, timestamp: u64, data: seq<string>): Net
    requires p in s.nodes
  {
    var node := Sending(s.nodes[p]);
    var m := Publication(p, node.lamportClock, timestamp, data);
    s.(nodes := s.nodes[p := node],
       published := s.published[id := m],
       packets := s.packets + set q | q in par.members && q != p :: Packet(q, id, p, PublicationFrame(par, m)),
       trace := s.trace + [Sent(p, id, node.lamportClock)])
  }

  /** The clock and the buffer move together, and only for the joined network. */
  ghost function DoReceive(par: Params, s: Net, packet: Packet, now: u64): Net
    requires ValidParams(par) && packet.to in s.nodes
  {
    var t := s.(packets := s.packets - {packet});
    match Gossip.Decode(packet.text)
    case Protocol(Replicated(timestamp, clock, network, data)) =>
      if network != par.network then t
      else
        var e := Entry(data, clock, timestamp, now, packet.id, packet.source, None);
        var node := Receipt(s.nodes[packet.to], e, par.config, now);
        t.(nodes := s.nodes[packet.to := node],
           trace := s.trace + [Handled(packet.to, packet.id, node.lamportClock)])
    case _ => t
  }

  ghost function DoConsume(s: Net, p: PeerId): Net
    requires p in s.nodes && s.nodes[p].queue != []
  {
    s.(nodes := s.nodes[p := Consumption(s.nodes[p])])
  }

  ghost function DoAdvertise(par: Params, s: Net, p: PeerId, now: u64): Net
    requires p in s.nodes
  {
    var local := Aged(s.nodes[p].queue, par.config.AgingPeriod(), now);
    var text := Gossip.Framed(AdvertisementOf(local, p, par.network));
    s.(ads := s.ads + set q | q in par.members && q != p :: Ad(q, p, text, local))
  }

  ghost function DoCompare(par: Params, s: Net, ad: Ad): Net
    requires ad.to in s.nodes
  {
    var t := s.(ads := s.ads - {ad});
    match Gossip.Decode(ad.text)
    case Protocol(Advertisement(advertiser, network, minClock, maxClock, ids)) =>
      if network != par.network then t
      else (
        match SyncRequest(ad.to, s.nodes[ad.to].queue, Some(s.nodes[ad.to].lastClock), advertiser, minClock, maxClock, ids)
        case None => t.(synced := s.synced + {Pair(ad.from, ad.to)})
        case Some(missing) => t.(requests := s.requests + {Request(ParsePeer(advertiser).GetOr(ad.from), ad.to, missing)}))
    case _ => t
  }

  ghost function DoServe(s: Net, r: Request): Net
    requires r.to in s.nodes && r.ids != []
  {
    s.(requests := s.requests - {r},
       responses := s.responses + {Response(r.from, r.to, [Codec.Marshalled(Selected(s.nodes[r.to].queue, r.ids))])})
  }

  ghost function DoAbsorb(s: Net, r: Response): Net
    requires r.to in s.nodes
  {
    var node := s.nodes[r.to];
    s.(responses := s.responses - {r},
       nodes := s.nodes[r.to := node.(queue := InsertAll(node.queue, Codec.Unmarshalled(r.blobs)))],
       synced := s.synced + {Pair(r.from, r.to)})
  }

  /** One step; an action that is not possible changes nothing. */
  ghost function Step(par: Params, s: Net, a: Action): Net
    requires ValidParams(par)
  {
    if !Enabled(par, s, a) then s
    else match a
      case Publish(p, id, timestamp, data) => DoPublish(par, s, p, id, timestamp, data)
      case Receive(packet, now) => DoReceive(par, s, packet, now)
      case Consume(p) => DoConsume(s, p)
      case Advertise(p, now) => DoAdvertise(par, s, p, now)
      case Compare(ad) => DoCompare(par, s, ad)
      case Serve(r) => DoServe(s, r)
      case Absorb(r) => DoAbsorb(s, r)
  }

  ghost function Steps(par: Params, s: Net, actions: seq<Action>): Net
    requires ValidParams(par)
    decreases |actions|
  {
    if actions == [] then s
    else Step(par, Steps(par, s, actions[..|actions| - 1]), actions[|actions| - 1])
  }

  ghost function Run(par: Params, actions: seq<Action>): Net
    requires ValidParams(par)
  {
    Steps(par, Init(par), actions)
  }

  lemma {:induction false} StepsMore(par: Params, s: Net, before: seq<Action>, after: seq<Action>)
    requires ValidParams(par)
    ensures Steps(par, s, before + after) == Steps(par, Steps(par, s, before), after)
    decreases |after|
  {
    if after == [] {
      assert before + after == before;
    } else {
      var k := |after| - 1;
      StepsMore(par, s, before, after[..k]);
      assert (before + after)[..|before + after| - 1] == before + after[..k];
    }
  }

  // ---- Invariants ------------------------------------------------------------------

  ghost predicate PublishedInv(par: Params, s: Net) {
    forall id | id in s.published ::
      var m := s.published[id];
      m.publisher in par.members && m.clock >= 1 && ValidMessageId(id) && WireSafe(par.network, id, m.data)
  }

  /** Everything an entry says about its message is what the publisher sent. */
  ghost predicate Faithful(s: Net, e: Entry) {
    && e.messageId in s.published
    && var m := s.published[e.messageId];
       && e.data == m.data && e.lamportClock == m.clock && e.outgoingTimestamp == m.timestamp
       && e.sender == m.publisher && e.confirmations == None
  }

  ghost predicate PacketsInv(par: Params, s: Net) {
    forall k | k in s.packets ::
      && k.id in s.published && k.to in par.members
      && var m := s.published[k.id];
         k.source == m.publisher && k.to != m.publisher && k.text == PublicationFrame(par, m)
  }

  ghost predicate BufferOk(s: Net, p: PeerId, node: Replica) {
    && Sorted(node.queue)
    && forall e | e in node.queue || e in node.consumed :: Faithful(s, e) && e.sender != p
  }

  ghost predicate NodesInv(par: Params, s: Net) {
    && s.nodes.Keys == par.members
    && forall p | p in s.nodes :: BufferOk(s, p, s.nodes[p])
  }

  ghost predicate AdOk(par: Params, s: Net, ad: Ad) {
    && ad.to in par.members && ad.from in par.members && ad.to != ad.from
    && Sorted(ad.local)
    && (forall e | e in ad.local :: Faithful(s, e))
    && ad.text == Gossip.Framed(AdvertisementOf(ad.local, ad.from, par.network))
  }

  ghost predicate RequestOk(par: Params, s: Net, r: Request) {
    && r.to in par.members && r.from in par.members && r.to != r.from
    && r.ids != []
    && forall id | id in r.ids :: id in s.published && s.published[id].publisher != r.from
  }

  ghost predicate ResponseOk(par: Params, s: Net, r: Response) {
    && r.to in par.members && r.from in par.members && r.to != r.from
    && forall e | e in Codec.Unmarshalled(r.blobs) :: Faithful(s, e) && e.sender != r.to
  }

  ghost predicate SyncInv(par: Params, s: Net) {
    && (forall ad | ad in s.ads :: AdOk(par, s, ad))
    && (forall r | r in s.requests :: RequestOk(par, s, r))
    && (forall r | r in s.responses :: ResponseOk(par, s, r))
  }

  ghost predicate Inv(par: Params, s: Net) {
    PublishedInv(par, s) && PacketsInv(par, s) && NodesInv(par, s) && SyncInv(par, s)
  }

  ghost predicate Extends(s: Net, t: Net) {
    forall id | id in s.published :: id in t.published && t.published[id] == s.published[id]
  }

  lemma BuffersStay(s: Net, t: Net, p: PeerId, node: Replica)
    requires Extends(s, t) && BufferOk(s, p, node)
    ensures BufferOk(t, p, node)
  {
  }

  lemma SyncStays(par: Params, s: Net, t: Net)
    requires Extends(s, t) && SyncInv(par, s)
    requires t.ads <= s.ads && t.requests <= s.requests && t.responses <= s.responses
    ensures SyncInv(par, t)
  {
  }

  /** A step that changes one buffer only keeps all buffers in order. */
  lemma OtherBuffersStay(par: Params, s: Net, t: Net, p: PeerId)
    requires NodesInv(par, s) && Extends(s, t)
    requires p in s.nodes && t.nodes.Keys == s.nodes.Keys && BufferOk(t, p, t.nodes[p])
    requires forall q | q in s.nodes && q != p :: t.nodes[q] == s.nodes[q]
    ensures NodesInv(par, t)
  {
  }

  lemma PublishKeepsInv(par: Params, s: Net, p: PeerId, id: string, timestamp: u64, data: seq<string>)
    requires ValidParams(par) && Inv(par, s)
    requires p in s.nodes && id !in s.published && ValidMessageId(id) && WireSafe(par.network, id, data)
    ensures Inv(par, DoPublish(par, s, p, id, timestamp, data))
  {
    var t := DoPublish(par, s, p, id, timestamp, data);
    SyncStays(par, s, t);
    PublishedStays(par, s, t, id);
    PublishPackets(par, s, p, id, timestamp, data);
    PublishNodes(par, s, t, p);
  }

  /** Publishing moves one clock and no buffer. */
  lemma PublishNodes(par: Params, s: Net, t: Net, p: PeerId)
    requires NodesInv(par, s) && p in s.nodes && Extends(s, t) && t.nodes == s.nodes[p := Sending(s.nodes[p])]
    ensures NodesInv(par, t)
  {
    assert BufferOk(s, p, s.nodes[p]);
    BuffersStay(s, t, p, t.nodes[p]);
    OtherBuffersStay(par, s, t, p);
  }

  lemma PublishedStays(par: Params, s: Net, t: Net, id: string)
    requires PublishedInv(par, s) && t.published.Keys == s.published.Keys + {id} && Extends(s, t)
    requires var m := t.published[id];
      m.publisher in par.members && m.clock >= 1 && ValidMessageId(id) && WireSafe(par.network, id, m.data)
    ensures PublishedInv(par, t)
  {
  }

  lemma PublishPackets(par: Params, s: Net, p: PeerId, id: string, timestamp: u64, data: seq<string>)
    requires PacketsInv(par, s) && p in s.nodes && id !in s.published
    ensures PacketsInv(par, DoPublish(par, s, p, id, timestamp, data))
  {
  }

  /** A packet is decoded into the message that was published. */
  lemma PacketArrives(par: Params, s: Net, k: Packet)
    requires PublishedInv(par, s) && PacketsInv(par, s) && k in s.packets
    ensures var m := s.published[k.id];
      Gossip.Decode(k.text) == Gossip.Protocol(Gossip.Replicated(m.timestamp, m.clock, par.network, m.data))
  {
    var m := s.published[k.id];
    Gossip.SeparableDecodes(Gossip.Replicated(m.timestamp, m.clock, par.network, m.data));
  }

  lemma ReceiptKeepsBuffer(par: Params, s: Net, p: PeerId, e: Entry, now: u64)
    requires ValidParams(par) && p in s.nodes && BufferOk(s, p, s.nodes[p])
    requires Faithful(s, e) && e.sender != p
    ensures BufferOk(s, p, Receipt(s.nodes[p], e, par.config, now))
  {
    var queue := s.nodes[p].queue;
    EvictedMeaning(queue, par.config.Capacity(), par.config.Expiry(), now);
    InsertCorrect(Evicted(queue, par.config.Capacity(), par.config.Expiry(), now), e);
  }

  /** What the receipt of a published message does. */
  lemma ReceiveMeans(par: Params, s: Net, k: Packet, now: u64)
    requires ValidParams(par) && PublishedInv(par, s) && PacketsInv(par, s) && k in s.packets && k.to in s.nodes
    ensures var m := s.published[k.id];
      var node := Receipt(s.nodes[k.to], Entry(m.data, m.clock, m.timestamp, now, k.id, k.source, None), par.config, now);
      DoReceive(par, s, k, now) == s.(packets := s.packets - {k}, nodes := s.nodes[k.to := node],
                                      trace := s.trace + [Handled(k.to, k.id, node.lamportClock)])
  {
    PacketArrives(par, s, k);
  }

  lemma ReceiveKeepsInv(par: Params, s: Net, k: Packet, now: u64)
    requires ValidParams(par) && Inv(par, s)
    requires k in s.packets && k.to in s.nodes
    ensures Inv(par, DoReceive(par, s, k, now))
  {
    ReceiveMeans(par, s, k, now);
    var t := DoReceive(par, s, k, now);
    var node, m := s.nodes[k.to], s.published[k.id];
    assert BufferOk(s, k.to, node);
    ReceiptKeepsBuffer(par, s, k.to, Entry(m.data, m.clock, m.timestamp, now, k.id, k.source, None), now);
    BuffersStay(s, t, k.to, t.nodes[k.to]);
    OtherBuffersStay(par, s, t, k.to);
    SyncStays(par, s, t);
  }

  lemma ConsumeKeepsInv(par: Params, s: Net, p: PeerId)
    requires ValidParams(par) && Inv(par, s)
    requires p in s.nodes && s.nodes[p].queue != []
    ensures Inv(par, DoConsume(s, p))
  {
    var t := DoConsume(s, p);
    SortedTail(s.nodes[p].queue);
    assert BufferOk(s, p, s.nodes[p]);
    BuffersStay(s, t, p, s.nodes[p]);
    assert BufferOk(t, p, t.nodes[p]);
    OtherBuffersStay(par, s, t, p);
    SyncStays(par, s, t);
  }

  /** What a node advertises is in order and as it was published. */
  lemma AgedIsOk(s: Net, p: PeerId, node: Replica, aging: u64, now: u64)
    requires BufferOk(s, p, node)
    ensures Sorted(Aged(node.queue, aging, now))
    ensures forall e | e in Aged(node.queue, aging, now) :: Faithful(s, e)
  {
    var isAged := (e: Entry) => IsAged(e, aging, now);
    Seqs.FilterIn(isAged, node.queue);
    FilterSorted(isAged, node.queue);
  }

  lemma AdvertiseKeepsInv(par: Params, s: Net, p: PeerId, now: u64)
    requires ValidParams(par) && Inv(par, s)
    requires p in s.nodes
    ensures Inv(par, DoAdvertise(par, s, p, now))
  {
    AgedIsOk(s, p, s.nodes[p], par.config.AgingPeriod(), now);
    var t := DoAdvertise(par, s, p, now);
    forall ad | ad in t.ads ensures AdOk(par, t, ad) {
      assert ad in s.ads ==> AdOk(par, s, ad);
    }
  }

  /** An advertisement in flight is decoded as it was made. */
  lemma AdArrives(par: Params, s: Net, ad: Ad)
    requires ValidParams(par) && PublishedInv(par, s) && AdOk(par, s, ad)
    ensures Gossip.Decode(ad.text) == Gossip.Protocol(AdvertisementOf(ad.local, ad.from, par.network))
  {
    assert forall e | e in ad.local :: Faithful(s, e);
    AdvertisementArrives(ad.local, ad.from, par.network);
  }

  /** What a node asks for was published by others and is not in its buffer. */
  lemma RequestMeaning(par: Params, s: Net, ad: Ad)
    requires ValidParams(par) && PublishedInv(par, s) && AdOk(par, s, ad)
    requires ad.to in s.nodes && BufferOk(s, ad.to, s.nodes[ad.to])
    ensures var m := AdvertisementOf(ad.local, ad.from, par.network);
      && (forall id | id in Missing(ad.to, s.nodes[ad.to].queue, m.minClock, m.maxClock, m.ids) ::
            id in s.published && s.published[id].publisher != ad.to)
      && (forall e | e in ad.local && !HoldsId(s.nodes[ad.to].queue, e.messageId) && !Contains(AdvertisedId(e), ad.to) ::
            e.messageId in Missing(ad.to, s.nodes[ad.to].queue, m.minClock, m.maxClock, m.ids))
  {
    var m := AdvertisementOf(ad.local, ad.from, par.network);
    var queue := s.nodes[ad.to].queue;
    assert forall e | e in ad.local :: Faithful(s, e);
    assert IdsDetermineClocks(ad.local, queue);
    forall id | id in Missing(ad.to, queue, m.minClock, m.maxClock, m.ids)
      ensures id in s.published && s.published[id].publisher != ad.to
    {
      MissingExactly(ad.to, queue, ad.local, ad.from, par.network, id);
      var e :| e in ad.local && e.messageId == id && !Contains(AdvertisedId(e), ad.to);
      AdvertisedIdParts(e);
    }
    forall e | e in ad.local && !HoldsId(queue, e.messageId) && !Contains(AdvertisedId(e), ad.to)
      ensures e.messageId in Missing(ad.to, queue, m.minClock, m.maxClock, m.ids)
    {
      MissingExactly(ad.to, queue, ad.local, ad.from, par.network, e.messageId);
    }
  }

  /** The ids missing at the receiver of an advertisement. */
  ghost function Wanted(par: Params, s: Net, ad: Ad): seq<string>
    requires ad.to in s.nodes
  {
    var m := AdvertisementOf(ad.local, ad.from, par.network);
    Missing(ad.to, s.nodes[ad.to].queue, m.minClock, m.maxClock, m.ids)
  }

  /** Nothing in the advertisement is newer than what the receiver consumed last. */
  ghost predicate Overtaken(s: Net, ad: Ad)
    requires ad.to in s.nodes
  {
    s.nodes[ad.to].lastClock >= if ad.local == [] then 0 else ad.local[|ad.local| - 1].lamportClock
  }

  lemma RequestOf(par: Params, s: Net, ad: Ad)
    requires ad.to in s.nodes
    ensures var m := AdvertisementOf(ad.local, ad.from, par.network);
      && m.advertiser == ad.from && m.network == par.network
      && SyncRequest(ad.to, s.nodes[ad.to].queue, Some(s.nodes[ad.to].lastClock), ad.from, m.minClock, m.maxClock, m.ids) ==
           if Overtaken(s, ad) || Wanted(par, s, ad) == [] then None else Some(Wanted(par, s, ad))
  {
  }

  lemma CompareResult(par: Params, s: Net, ad: Ad)
    requires ValidParams(par) && PublishedInv(par, s) && AdOk(par, s, ad)
    requires ad.to in s.nodes
    ensures DoCompare(par, s, ad) ==
      if Overtaken(s, ad) || Wanted(par, s, ad) == []
      then s.(ads := s.ads - {ad}, synced := s.synced + {Pair(ad.from, ad.to)})
      else s.(ads := s.ads - {ad}, requests := s.requests + {Request(ad.from, ad.to, Wanted(par, s, ad))})
  {
    AdArrives(par, s, ad);
    RequestOf(par, s, ad);
    assert ParsePeer(ad.from) == Some(ad.from);
  }

  lemma CompareKeepsInv(par: Params, s: Net, ad: Ad)
    requires ValidParams(par) && Inv(par, s)
    requires ad in s.ads && ad.to in s.nodes
    ensures Inv(par, DoCompare(par, s, ad))
  {
    var t := DoCompare(par, s, ad);
    assert AdOk(par, s, ad) && BufferOk(s, ad.to, s.nodes[ad.to]);
    CompareResult(par, s, ad);
    SyncStays(par, s, t.(requests := s.requests));
    RequestMeaning(par, s, ad);
    var r := Request(ad.from, ad.to, Wanted(par, s, ad));
    if r.ids != [] {
      assert RequestOk(par, t, r);
    }
    BuffersStay(s, t, ad.to, s.nodes[ad.to]);
    OtherBuffersStay(par, s, t, ad.to);
    AddRequest(par, t, t.(requests := s.requests), r);
  }

  lemma AddRequest(par: Params, t: Net, t0: Net, r: Request)
    requires SyncInv(par, t0) && t0.published == t.published && t0.ads == t.ads && t0.responses == t.responses
    requires t.requests == t0.requests || (t.requests == t0.requests + {r} && RequestOk(par, t, r))
    ensures SyncInv(par, t)
  {
  }

  lemma CleanAsPublished(par: Params, s: Net, e: Entry)
    requires PublishedInv(par, s) && Faithful(s, e)
    ensures Codec.Clean(e) && e.messageId != ""
  {
  }

  lemma ServeKeepsInv(par: Params, s: Net, r: Request)
    requires ValidParams(par) && Inv(par, s)
    requires r in s.requests && r.to in s.nodes
    ensures r.ids != [] && Inv(par, DoServe(s, r))
  {
    assert RequestOk(par, s, r) && BufferOk(s, r.to, s.nodes[r.to]);
    var queue := s.nodes[r.to].queue;
    forall e | e in queue ensures Codec.Clean(e) && e.confirmations == None {
      CleanAsPublished(par, s, e);
    }
    ServedIsHeld(queue, r.ids);
  }

  lemma AbsorbKeepsInv(par: Params, s: Net, r: Response)
    requires ValidParams(par) && Inv(par, s)
    requires r in s.responses && r.to in s.nodes
    ensures Inv(par, DoAbsorb(s, r))
  {
    var t := DoAbsorb(s, r);
    assert ResponseOk(par, s, r) && BufferOk(s, r.to, s.nodes[r.to]);
    InsertAllCorrect(s.nodes[r.to].queue, Codec.Unmarshalled(r.blobs));
    assert BufferOk(t, r.to, t.nodes[r.to]);
    OtherBuffersStay(par, s, t, r.to);
    SyncStays(par, s, t);
  }

  lemma StepKeepsInv(par: Params, s: Net, a: Action)
    requires ValidParams(par) && Inv(par, s)
    requires a.Publish? ==> WireSafe(par.network, a.id, a.data)
    ensures Inv(par, Step(par, s, a))
  {
    if Enabled(par, s, a) {
      match a
      case Publish(p, id, timestamp, data) => PublishKeepsInv(par, s, p, id, timestamp, data);
      case Receive(k, now) => ReceiveKeepsInv(par, s, k, now);
      case Consume(p) => ConsumeKeepsInv(par, s, p);
      case Advertise(p, now) => AdvertiseKeepsInv(par, s, p, now);
      case Compare(ad) => CompareKeepsInv(par, s, ad);
      case Serve(r) => ServeKeepsInv(par, s, r);
      case Absorb(r) => AbsorbKeepsInv(par, s, r);
    }
  }

  /** All published data survives the codecs. */
  ghost predicate SafeData(par: Params, actions: seq<Action>) {
    forall a | a in actions && a.Publish? :: WireSafe(par.network, a.id, a.data)
  }

  lemma {:induction false} RunKeepsInv(par: Params, actions: seq<Action>)
    requires ValidParams(par) && SafeData(par, actions)
    ensures Inv(par, Run(par, actions))
  {
    if actions != [] {
      assert forall a | a in actions[..|actions| - 1] :: a in actions;
      assert actions[|actions| - 1] in actions;
      RunKeepsInv(par, actions[..|actions| - 1]);
      StepKeepsInv(par, Run(par, actions[..|actions| - 1]), actions[|actions| - 1]);
    }
  }

  /** A situation that some run leads to. */
  ghost predicate Reachable(par: Params, s: Net)
    requires ValidParams(par)
  {
    exists actions :: s == Run(par, actions)
  }

  /** A situation that some run with safe data leads to. */
  ghost predicate SafelyReachable(par: Params, s: Net)
    requires ValidParams(par)
  {
    exists actions :: SafeData(par, actions) && s == Run(par, actions)
  }

  /** With safe data, buffers are always in order and free of the node's own messages, and
      every entry anywhere is what its publisher sent. */
  lemma ReachableInv(par: Params, s: Net)
    requires ValidParams(par) && SafelyReachable(par, s)
    ensures Inv(par, s) && Reachable(par, s)
  {
    var actions :| SafeData(par, actions) && s == Run(par, actions);
    RunKeepsInv(par, actions);
  }

  lemma TwoSteps(par: Params, s: Net, a: Action, b: Action)
    requires ValidParams(par)
    ensures Steps(par, s, [a, b]) == Step(par, Step(par, s, a), b)
  {
    assert [a, b][..1] == [a] && [a][..0] == [];
    assert Steps(par, s, []) == s && Steps(par, s, [a]) == Step(par, s, a);
  }

  lemma PublishedThenReceived(par: Params, s: Net, p: PeerId, k: Packet, data: seq<string>)
    requires ValidParams(par) && s == Init(par) && p in par.members && k.to in par.members && k.to != p
    requires k == Packet(k.to, "m", p, PublicationFrame(par, Publication(p, 1, 0, data)))
    ensures var t := DoPublish(par, s, p, "m", 0, data);
      k.to in t.nodes && Step(par, Step(par, s, Publish(p, "m", 0, data)), Receive(k, 0)) == DoReceive(par, t, k, 0)
  {
    var t := DoPublish(par, s, p, "m", 0, data);
    assert Step(par, s, Publish(p, "m", 0, data)) == t && k in t.packets;
  }
}
