/**
 The replica buffer of one node. The first part describes, on values, what each operation
 does to the buffers of one replica network; the class keeps those buffers for all
 networks and performs the operations in place.
 */
module ReplicaBuffer {
  import opened Wrappers
  import opened U64
  import opened Seqs
  import opened Framing
  import opened Entries
  import opened OrderedBuffer
  import opened Eviction
  import Codec
  import Gossip

  const MAX_CAPACITY: u64 := 150
  const EXPIRY_TIME: u64 := 60
  const DATA_AGING_PERIOD: u64 := 5

  datatype ConsensusModel = All | MinPeers(required: u64)

  datatype ConsistencyModel = Eventual | Strong(consensus: ConsensusModel)

  datatype ReplNetworkConfig =
    | Default
    | Custom(queueLength: u64, expiryTime: Option<u64>, syncWaitTime: u64,
             consistencyModel: ConsistencyModel, dataAgingPeriod: u64)
  {
    function Consistency(): ConsistencyModel {
      match this case Default => Eventual case Custom(_, _, _, model, _) => model
    }

    function Capacity(): u64 {
      match this case Default => MAX_CAPACITY case Custom(length, _, _, _, _) => length
    }

    function Expiry(): Option<u64> {
      match this case Default => Some(EXPIRY_TIME) case Custom(_, expiry, _, _, _) => expiry
    }

    function AgingPeriod(): u64 {
      match this case Default => DATA_AGING_PERIOD case Custom(_, _, _, _, aging) => aging
    }

    /** The confirmation count at which an entry is released; zero if none is. */
    function PeersCount(replicaPeers: u64): u64 {
      match Consistency()
      case Eventual => 0
      case Strong(All) => replicaPeers
      case Strong(MinPeers(required)) => required
    }
  }

  /** The default configuration, and what a configuration of one's own says. */
  lemma ConfigMeans(length: u64, expiry: Option<u64>, wait: u64, model: ConsistencyModel, aging: u64)
    ensures var d := Default;
      d.Consistency() == Eventual && d.Capacity() == 150 && d.Expiry() == Some(60) && d.AgingPeriod() == 5
    ensures var c := Custom(length, expiry, wait, model, aging);
      c.Consistency() == model && c.Capacity() == length && c.Expiry() == expiry && c.AgingPeriod() == aging
  {
  }

  /** The configured number of confirmations: all other members, or the number given. */
  lemma PeersCountMeans(config: ReplNetworkConfig, replicaPeers: u64)
    ensures config.Consistency() == Strong(All) ==> config.PeersCount(replicaPeers) == replicaPeers
    ensures forall k: u64 | config.Consistency() == Strong(MinPeers(k)) :: config.PeersCount(replicaPeers) == k
    ensures config.Consistency() == Eventual ==> config.PeersCount(replicaPeers) == 0
  {
  }

  // ---- Staging under strong consistency --------------------------------------------

  /** Entries waiting for confirmations, by message id. */
  type Temp = map<string, Entry>

  predicate IsFirstKey(temp: Temp, k: string) {
    k in temp && forall k' | k' in temp :: k' == k || TextLess(k, k')
  }

  lemma {:induction false} FirstKeyExists(temp: Temp)
    requires temp != map[]
    ensures exists k :: IsFirstKey(temp, k)
    decreases |temp|
  {
    var k :| k in temp;
    var rest := temp - {k};
    if rest == map[] {
      assert forall k' | k' in temp && k' != k :: k' in rest;
      assert IsFirstKey(temp, k);
    } else {
      assert rest.Keys == temp.Keys - {k};
      FirstKeyExists(rest);
      var f :| IsFirstKey(rest, f);
      TextLessTotal(k, f);
      var first := if TextLess(k, f) then k else f;
      forall k' | k' in temp ensures k' == first || TextLess(first, k') {
        if k' in rest && first == k && k' != f {
          TextLessTrans(k, f, k');
        }
      }
      assert IsFirstKey(temp, first);
    }
  }

  lemma FirstKeyUnique(temp: Temp, k: string, l: string)
    requires IsFirstKey(temp, k) && IsFirstKey(temp, l)
    ensures k == l
  {
    TextLessTotal(k, l);
  }

  ghost function FirstKey(temp: Temp): (k: string)
    requires temp != map[]
    ensures IsFirstKey(temp, k)
  {
    FirstKeyExists(temp);
    var k :| IsFirstKey(temp, k);
    k
  }

  /** A full staging area gives up the entry with the smallest id. */
  ghost function WithRoom(temp: Temp): Temp {
    if |temp| >= MAX_CAPACITY then temp - {FirstKey(temp)} else temp
  }

  /** Below the fixed capacity nothing is given up; otherwise exactly one entry, the one with
      the smallest id. */
  lemma WithRoomExactly(temp: Temp)
    ensures |temp| < 150 ==> WithRoom(temp) == temp
    ensures |temp| >= 150 ==> exists k :: (
      && k in temp && (forall l | l in temp && l != k :: Precedes(k, l))
      && WithRoom(temp).Keys == temp.Keys - {k} && (forall l | l in WithRoom(temp) :: WithRoom(temp)[l] == temp[l]))
  {
    if |temp| >= 150 {
      var k := FirstKey(temp);
      forall l | l in temp && l != k ensures Precedes(k, l) {
        TextLessExactly(k, l);
      }
    }
  }

  /** One known peer, or one required confirmation, makes staging superfluous. */
  predicate Direct(consensus: ConsensusModel, replicaPeers: u64) {
    replicaPeers == 1 || consensus == MinPeers(1)
  }

  datatype Node = Node(temp: Temp, queue: seq<Entry>)

  ghost function PushStrong(node: Node, consensus: ConsensusModel, replicaPeers: u64, e: Entry): Node {
    var temp := WithRoom(node.temp);
    if Direct(consensus, replicaPeers) then Node(temp, Insert(node.queue, e))
    else Node(temp[e.messageId := e], node.queue)
  }

  /** Counting one confirmation; the count never passes the required number. */
  function Counted(temp: Temp, id: string, peersCount: u64): Temp {
    if id in temp && temp[id].confirmations.Some? && temp[id].confirmations.value < peersCount
    then temp[id := temp[id].(confirmations := Some(temp[id].confirmations.value + 1))]
    else temp
  }

  predicate Confirmed(temp: Temp, id: string, peersCount: u64) {
    id in temp && peersCount != 0 && temp[id].confirmations == Some(peersCount)
  }

  /** Releasing an entry: make room in the public buffer, then move the entry if it is
      still staged. */
  function Released(node: Node, id: string, config: ReplNetworkConfig, now: u64): Node
    requires config.Capacity() >= 1
  {
    var queue := if config.Custom? then Evicted(node.queue, config.Capacity(), config.Expiry(), now) else node.queue;
    if id in node.temp then Node(node.temp - {id}, Insert(queue, node.temp[id]))
    else Node(node.temp, queue)
  }

  /** Accepting under strong consistency, in full: an entry is public at once for one known peer
      or one required confirmation, and staged otherwise; of a full staging area the smallest id
      goes, and everything else stays. */
  lemma PushStrongMeaning(node: Node, consensus: ConsensusModel, replicaPeers: u64, e: Entry)
    requires Sorted(node.queue)
    ensures var after := PushStrong(node, consensus, replicaPeers, e);
      var direct := replicaPeers == 1 || consensus == MinPeers(1);
      && (if direct then forall x :: x in after.queue <==> x in node.queue || (x == e && !HasKey(node.queue, e))
          else after.queue == node.queue)
      && (if direct then after.temp.Keys <= node.temp.Keys
          else e.messageId in after.temp && after.temp[e.messageId] == e)
      && (forall id | id in after.temp && (direct || id != e.messageId) :: id in node.temp && after.temp[id] == node.temp[id])
      && (forall id | id in node.temp && id !in after.temp ::
            |node.temp| >= 150 && forall l | l in node.temp && l != id :: Precedes(id, l))
  {
    WithRoomExactly(node.temp);
    InsertCorrect(node.queue, e);
  }

  /** Counting a confirmation, in full. */
  lemma CountedMeaning(temp: Temp, id: string, peersCount: u64)
    requires id in temp ==> temp[id].confirmations.Some?
    ensures var after := Counted(temp, id, peersCount);
      && after.Keys == temp.Keys
      && (forall l | l in temp && l != id :: after[l] == temp[l])
      && (id in temp ==> after[id] == temp[id].(confirmations := after[id].confirmations))
      && (id in temp && temp[id].confirmations.value < peersCount ==>
            after[id].confirmations == Some(temp[id].confirmations.value + 1))
      && (id in temp && temp[id].confirmations.value >= peersCount ==> after[id] == temp[id])
      && (Confirmed(after, id, peersCount) <==> id in temp && peersCount > 0 && after[id].confirmations == Some(peersCount))
  {
  }

  /** Releasing, in full: the entry leaves the staging area and becomes public unless its key is
      taken; a configured capacity is respected and nothing is lost while there is room. */
  lemma ReleasedMeaning(node: Node, id: string, config: ReplNetworkConfig, now: u64)
    requires config.Custom? && config.Capacity() >= 1 && Sorted(node.queue)
    ensures var after := Released(node, id, config, now);
      && after.temp == node.temp - {id}
      && (id in node.temp ==> HasKey(after.queue, node.temp[id]) && |after.queue| <= config.Capacity())
      && (forall x | x in after.queue :: x in node.queue || (id in node.temp && x == node.temp[id]))
      && (forall x | x in node.queue && |node.queue| < config.Capacity() :: x in after.queue)
      && (forall x, y | x in node.queue && x !in after.queue && Fresh(x, config.Expiry(), now)
                        && y in after.queue && (id in node.temp ==> y != node.temp[id]) :: KeyLess(x, y))
  {
    EvictedMeaning(node.queue, config.Capacity(), config.Expiry(), now);
    if id in node.temp {
      var room := Evicted(node.queue, config.Capacity(), config.Expiry(), now);
      InsertCorrect(room, node.temp[id]);
      InsertedHasKey(room, node.temp[id]);
    } else {
      assert node.temp - {id} == node.temp;
    }
  }

  lemma InsertedHasKey(q: seq<Entry>, e: Entry)
    requires Sorted(q)
    ensures HasKey(Insert(q, e), e)
  {
    InsertCorrect(q, e);
    if x :| x in q && SameKey(x, e) {
      assert x in Insert(q, e);
    } else {
      assert e in Insert(q, e) && SameKey(e, e);
    }
  }

  // ---- Anti-entropy under eventual consistency -------------------------------------

  function PushEventual(queue: seq<Entry>, e: Entry, config: ReplNetworkConfig, now: u64): seq<Entry>
    requires config.Capacity() >= 1
  {
    Insert(Evicted(queue, config.Capacity(), config.Expiry(), now), e)
  }

  /** Accepting under eventual consistency, in full: the entry is public unless its key is taken,
      the capacity is respected, nothing is lost while there is room, and otherwise only expired
      entries and the earliest ones. */
  lemma PushEventualMeaning(queue: seq<Entry>, e: Entry, config: ReplNetworkConfig, now: u64)
    requires config.Capacity() >= 1 && Sorted(queue)
    ensures var after := PushEventual(queue, e, config, now);
      && Sorted(after) && HasKey(after, e) && |after| <= config.Capacity()
      && (forall x | x in after :: x in queue || x == e)
      && (forall x | x in queue && |queue| < config.Capacity() :: x in after)
      && (forall x, y | x in queue && x !in after && Fresh(x, config.Expiry(), now) && y in after && y != e :: KeyLess(x, y))
  {
    EvictedMeaning(queue, config.Capacity(), config.Expiry(), now);
    var room := Evicted(queue, config.Capacity(), config.Expiry(), now);
    InsertCorrect(room, e);
    InsertedHasKey(room, e);
  }

  /** The entry arrived long enough ago to be advertised. */
  predicate IsAged(e: Entry, aging: u64, now: u64) {
    SaturatingSub(now, e.incomingTimestamp) > aging
  }

  lemma AgedExactly(e: Entry, aging: u64, now: u64)
    ensures IsAged(e, aging, now) <==> e.incomingTimestamp + aging < now
  {
  }

  function Aged(queue: seq<Entry>, aging: u64, now: u64): seq<Entry> {
    Filter((e: Entry) => IsAged(e, aging, now), queue)
  }

  function AdvertisedId(e: Entry): string {
    e.messageId + Codec.ENTRY_DELIMITER + e.sender
  }

  /** The advertisement of a sorted list of entries: the clocks of its ends and all ids. */
  function AdvertisementOf(local: seq<Entry>, peer: PeerId, network: string): Gossip.Message {
    if local == [] then Gossip.Advertisement(peer, network, 0, 0, [])
    else Gossip.Advertisement(peer, network, local[0].lamportClock, local[|local| - 1].lamportClock,
                              Map(AdvertisedId, local))
  }

  /** Insertion into a sorted set of texts. */
  function TextInsert(xs: seq<string>, x: string): seq<string> {
    if xs == [] || TextLess(x, xs[0]) then [x] + xs
    else if x == xs[0] then xs
    else [xs[0]] + TextInsert(xs[1..], x)
  }

  function TextSet(xs: seq<string>): seq<string> {
    if xs == [] then [] else TextInsert(TextSet(xs[1..]), xs[0])
  }

  function MessageIdOf(advertised: string): string {
    Split(advertised, Codec.ENTRY_DELIMITER)[0]
  }

  /** The advertised ids, except those that carry the node's own name. */
  function RemoteIds(self: PeerId, advertised: seq<string>): seq<string> {
    TextSet(Map(MessageIdOf, Filter((id: string) => !Contains(id, self), advertised)))
  }

  function IdOf(e: Entry): string {
    e.messageId
  }

  /** The ids of the local entries inside a clock interval. */
  function IdsInside(queue: seq<Entry>, minClock: u64, maxClock: u64): seq<string> {
    Map(IdOf, Filter((e: Entry) => minClock <= e.lamportClock <= maxClock, queue))
  }

  /** The ids a node asks for: advertised, not published by itself, and not found among the
      local entries inside the advertised clock interval. */
  function Missing(self: PeerId, queue: seq<Entry>, minClock: u64, maxClock: u64, advertised: seq<string>): seq<string> {
    var local := IdsInside(queue, minClock, maxClock);
    Filter((id: string) => id !in local, RemoteIds(self, advertised))
  }

  /** The request a node answers an advertisement with, if any: nothing newer than what was
      consumed last, or nothing missing, needs no pull. */
  function SyncRequest(self: PeerId, queue: seq<Entry>, lastClock: Option<u64>, advertiser: string,
                       minClock: u64, maxClock: u64, advertised: seq<string>): Option<seq<string>> {
    if lastClock.Some? && lastClock.value >= maxClock then None
    else
      var ids := Missing(self, queue, minClock, maxClock, advertised);
      if ids == [] || ParsePeer(advertiser).None? then None else Some(ids)
  }

  /** The entries served for a request; an empty first id asks for the whole buffer. */
  function Selected(queue: seq<Entry>, ids: seq<string>): seq<Entry>
    requires ids != []
  {
    if ids[0] == "" then queue else Filter((e: Entry) => e.messageId in ids, queue)
  }

  /** A clone request is served the whole buffer, any other request exactly what it names, in
      the order of the buffer. */
  lemma SelectedMeaning(queue: seq<Entry>, ids: seq<string>)
    requires ids != []
    ensures ids[0] == "" ==> Selected(queue, ids) == queue
    ensures ids[0] != "" ==> forall e :: e in Selected(queue, ids) <==> e in queue && e.messageId in ids
    ensures Sorted(queue) ==> Sorted(Selected(queue, ids))
  {
    FilterIn((e: Entry) => e.messageId in ids, queue);
    if Sorted(queue) {
      FilterSorted((e: Entry) => e.messageId in ids, queue);
    }
  }

  /** When an advertisement is answered with a request: some clock in it is newer than what was
      consumed last, something is missing, and the advertiser is a peer. */
  lemma SyncRequestExactly(self: PeerId, queue: seq<Entry>, lastClock: Option<u64>, advertiser: string,
                           minClock: u64, maxClock: u64, advertised: seq<string>)
    ensures var r := SyncRequest(self, queue, lastClock, advertiser, minClock, maxClock, advertised);
      && (r.Some? <==>
            && (lastClock == None || lastClock.value < maxClock)
            && IsPeerText(advertiser)
            && exists id :: id in Missing(self, queue, minClock, maxClock, advertised))
      && (r.Some? ==> r.value == Missing(self, queue, minClock, maxClock, advertised))
  {
    var ids := Missing(self, queue, minClock, maxClock, advertised);
    if ids != [] {
      assert ids[0] in ids;
    }
  }

  lemma {:induction false} TextInsertIn(xs: seq<string>, x: string)
    ensures forall y :: y in TextInsert(xs, x) <==> y == x || y in xs
  {
    if xs != [] {
      TextInsertIn(xs[1..], x);
      assert xs == [xs[0]] + xs[1..];
    }
  }

  lemma {:induction false} TextSetIn(xs: seq<string>)
    ensures forall y :: y in TextSet(xs) <==> y in xs
  {
    if xs != [] {
      TextSetIn(xs[1..]);
      TextInsertIn(TextSet(xs[1..]), xs[0]);
      assert xs == [xs[0]] + xs[1..];
    }
  }

  lemma MapIn<A, B>(f: A -> B, xs: seq<A>, y: B)
    ensures y in Map(f, xs) <==> exists x :: x in xs && f(x) == y
  {
  }

  lemma RemoteIdsMeaning(self: PeerId, advertised: seq<string>, id: string)
    ensures id in RemoteIds(self, advertised) <==>
      exists a :: a in advertised && !Contains(a, self) && MessageIdOf(a) == id
  {
    var foreign := Filter((a: string) => !Contains(a, self), advertised);
    FilterIn((a: string) => !Contains(a, self), advertised);
    TextSetIn(Map(MessageIdOf, foreign));
    MapIn(MessageIdOf, foreign, id);
  }

  lemma IdsInsideMeaning(queue: seq<Entry>, minClock: u64, maxClock: u64, id: string)
    ensures id in IdsInside(queue, minClock, maxClock) <==>
      exists e :: e in queue && minClock <= e.lamportClock <= maxClock && e.messageId == id
  {
    var inside := Filter((e: Entry) => minClock <= e.lamportClock <= maxClock, queue);
    FilterIn((e: Entry) => minClock <= e.lamportClock <= maxClock, queue);
    MapIn(IdOf, inside, id);
  }

  /** Which ids are asked for, without reference to the order in which they are computed. */
  lemma MissingMeaning(self: PeerId, queue: seq<Entry>, minClock: u64, maxClock: u64, advertised: seq<string>, id: string)
    ensures id in Missing(self, queue, minClock, maxClock, advertised) <==>
      && (exists a :: a in advertised && !Contains(a, self) && MessageIdOf(a) == id)
      && (forall e | e in queue && minClock <= e.lamportClock <= maxClock :: e.messageId != id)
  {
    var local := IdsInside(queue, minClock, maxClock);
    RemoteIdsMeaning(self, advertised, id);
    IdsInsideMeaning(queue, minClock, maxClock, id);
    FilterIn((x: string) => x !in local, RemoteIds(self, advertised));
  }

  ghost predicate Ascending(xs: seq<string>) {
    forall i, j | 0 <= i < j < |xs| :: TextLess(xs[i], xs[j])
  }

  lemma {:induction false} TextInsertAscending(xs: seq<string>, x: string)
    requires Ascending(xs)
    ensures Ascending(TextInsert(xs, x))
  {
    if xs != [] {
      TextLessTotal(x, xs[0]);
      if TextLess(x, xs[0]) {
        forall j | 0 <= j < |xs| ensures TextLess(x, xs[j]) {
          if j > 0 {
            TextLessTrans(x, xs[0], xs[j]);
          }
        }
      } else if x != xs[0] {
        TextInsertAscending(xs[1..], x);
        TextInsertIn(xs[1..], x);
        var rest := TextInsert(xs[1..], x);
        forall j | 0 <= j < |rest| ensures TextLess(xs[0], rest[j]) {
          assert rest[j] == x || rest[j] in xs[1..];
        }
      }
    }
  }

  lemma {:induction false} TextSetAscending(xs: seq<string>)
    ensures Ascending(TextSet(xs))
  {
    if xs != [] {
      TextSetAscending(xs[1..]);
      TextInsertAscending(TextSet(xs[1..]), xs[0]);
    }
  }

  lemma {:induction false} FilterAscending(p: string -> bool, xs: seq<string>)
    requires Ascending(xs)
    ensures Ascending(Filter(p, xs))
  {
    if xs != [] {
      FilterAscending(p, xs[1..]);
      FilterIn(p, xs[1..]);
      forall x | x in Filter(p, xs[1..]) ensures TextLess(xs[0], x) {
        var j :| 0 <= j < |xs[1..]| && xs[1..][j] == x;
        assert xs[j + 1] == x;
      }
    }
  }

  /** Ids are asked for in ascending order, each once. */
  lemma MissingAscending(self: PeerId, queue: seq<Entry>, minClock: u64, maxClock: u64, advertised: seq<string>)
    ensures Ascending(Missing(self, queue, minClock, maxClock, advertised))
  {
    var local := IdsInside(queue, minClock, maxClock);
    TextSetAscending(Map(MessageIdOf, Filter((id: string) => !Contains(id, self), advertised)));
    FilterAscending((id: string) => id !in local, RemoteIds(self, advertised));
  }

  // ---- The buffer ------------------------------------------------------------------

  lemma InsertAllStep(q: seq<Entry>, es: seq<Entry>, i: nat)
    requires i < |es|
    ensures InsertAll(q, es[..i + 1]) == Insert(InsertAll(q, es[..i]), es[i])
    decreases i
  {
    if i == 0 {
      assert es[..1][1..] == [];
    } else {
      InsertAllStep(Insert(q, es[0]), es[1..], i - 1);
      assert es[..i + 1][1..] == es[1..][..i] && es[..i][1..] == es[1..][..i - 1];
    }
  }

  class ReplicaBufferQueue {
    const config: ReplNetworkConfig
    var temporaryQueue: map<string, Temp>
    var queue: map<string, seq<Entry>>

    ghost predicate Valid()
      reads this
    {
      && config.Capacity() >= 1
      && (forall n | n in queue :: Sorted(queue[n]))
      && (forall n, id | n in temporaryQueue && id in temporaryQueue[n] ::
            temporaryQueue[n][id].messageId == id && temporaryQueue[n][id].confirmations.Some?)
    }

    /** The buffers of one network; a network without buffers counts as empty. */
    ghost function NodeOf(network: string): Node
      reads this
    {
      Node(if network in temporaryQueue then temporaryQueue[network] else map[],
           if network in queue then queue[network] else [])
    }

    constructor (config: ReplNetworkConfig)
      requires config.Capacity() >= 1
      ensures Valid() && this.config == config && temporaryQueue == map[] && queue == map[]
    {
      this.config := config;
      temporaryQueue, queue := map[], map[];
    }

    /** Joining a network starts from empty buffers, also when it was joined before. */
    method Init(network: string)
      requires Valid()
      modifies this
      ensures Valid()
      ensures queue == old(queue)[network := []]
      ensures temporaryQueue == if config.Consistency() == Eventual then old(temporaryQueue)
                                else old(temporaryQueue)[network := map[]]
    {
      queue := queue[network := []];
      if config.Consistency() != Eventual {
        temporaryQueue := temporaryQueue[network := map[]];
      }
    }

    /** Accepting a message that arrived by gossip. The result is the confirmation to be
        broadcast, if the message waits for others. */
    method Push(network: string, data: Entry, replicaPeers: u64, now: u64) returns (gossip: Option<Gossip.Message>)
      requires Valid()
      requires config.Consistency().Strong? ==> data.confirmations.Some?
      modifies this
      ensures Valid()
      ensures config.Consistency() == Eventual ==>
        && gossip == None
        && temporaryQueue == old(temporaryQueue)
        && queue == old(queue)[network := PushEventual(old(NodeOf(network)).queue, data, config, now)]
      ensures config.Consistency().Strong? ==>
        var consensus := config.Consistency().consensus;
        var after := PushStrong(old(NodeOf(network)), consensus, replicaPeers, data);
        && gossip == (if Direct(consensus, replicaPeers) then None
                      else Some(Gossip.Confirmation(network, data.messageId)))
        && temporaryQueue == old(temporaryQueue)[network := after.temp]
        && queue == if Direct(consensus, replicaPeers) then old(queue)[network := after.queue] else old(queue)
    {
      match config.Consistency() {
        case Eventual =>
          PushFinal(network, data, now);
          gossip := None;
        case Strong(consensus) =>
          gossip := PushStaged(network, data, consensus, replicaPeers);
      }
    }

    /** The branch of `Push` for eventual consistency: straight into the public buffer. */
    method PushFinal(network: string, data: Entry, now: u64)
      requires Valid()
      modifies this`queue
      ensures Valid()
      ensures queue == old(queue)[network := PushEventual(old(NodeOf(network)).queue, data, config, now)]
    {
      var q := if network in queue then queue[network] else [];
      var room := EvictInterleaved(q, config.Capacity(), config.Expiry(), now);
      EvictedMeaning(q, config.Capacity(), config.Expiry(), now);
      InsertCorrect(room, data);
      queue := queue[network := Insert(room, data)];
    }

    /** The branch of `Push` for strong consistency: wait for confirmations unless one suffices. */
    method PushStaged(network: string, data: Entry, consensus: ConsensusModel, replicaPeers: u64)
      returns (gossip: Option<Gossip.Message>)
      requires Valid() && data.confirmations.Some?
      modifies this
      ensures Valid()
      ensures gossip == if Direct(consensus, replicaPeers) then None
                        else Some(Gossip.Confirmation(network, data.messageId))
      ensures var after := PushStrong(old(NodeOf(network)), consensus, replicaPeers, data);
        && temporaryQueue == old(temporaryQueue)[network := after.temp]
        && queue == if Direct(consensus, replicaPeers) then old(queue)[network := after.queue] else old(queue)
    {
      var temp := if network in temporaryQueue then temporaryQueue[network] else map[];
      if |temp| >= MAX_CAPACITY {
        FirstKeyExists(temp);
        var first :| IsFirstKey(temp, first);
        FirstKeyUnique(temp, first, FirstKey(temp));
        temp := temp - {first};
      }
      assert temp == WithRoom(old(NodeOf(network)).temp);
      gossip := None;
      if Direct(consensus, replicaPeers) {
        var q := if network in queue then queue[network] else [];
        InsertCorrect(q, data);
        queue := queue[network := Insert(q, data)];
      } else {
        temp := temp[data.messageId := data];
        gossip := Some(Gossip.Confirmation(network, data.messageId));
      }
      temporaryQueue := temporaryQueue[network := temp];
    }

    /** Taking the earliest entry. */
    method PopFront(network: string) returns (first: Option<Entry>)
      requires Valid()
      modifies this`queue
      ensures Valid()
      ensures old(NodeOf(network)).queue == [] ==> first == None && queue == old(queue)
      ensures old(NodeOf(network)).queue != [] ==>
        && first == Some(old(queue)[network][0])
        && queue == old(queue)[network := old(queue)[network][1..]]
        && forall e | e in queue[network] :: KeyLess(first.value, e)
    {
      first := None;
      if network in queue && queue[network] != [] {
        first := Some(queue[network][0]);
        SortedTail(queue[network]);
        queue := queue[network := queue[network][1..]];
      }
    }

    /** First half of handling a confirmation: count it and decide. */
    method CountConfirmation(network: string, id: string, replicaPeers: u64) returns (confirmed: bool)
      requires Valid()
      modifies this`temporaryQueue
      ensures Valid()
      ensures temporaryQueue ==
        if network in old(temporaryQueue)
        then old(temporaryQueue)[network := Counted(old(temporaryQueue)[network], id, config.PeersCount(replicaPeers))]
        else old(temporaryQueue)
      ensures confirmed == Confirmed(NodeOf(network).temp, id, config.PeersCount(replicaPeers))
    {
      confirmed := false;
      var peersCount := config.PeersCount(replicaPeers);
      if network in temporaryQueue && id in temporaryQueue[network] {
        var entry := temporaryQueue[network][id];
        if entry.confirmations.value < peersCount {
          entry := entry.(confirmations := Some(entry.confirmations.value + 1));
          temporaryQueue := temporaryQueue[network := temporaryQueue[network][id := entry]];
        }
        confirmed := peersCount != 0 && entry.confirmations == Some(peersCount);
      }
    }

    /** Second half: release the entry. Other handlers may have run in between. */
    method MoveConfirmed(network: string, id: string, now: u64)
      requires Valid()
      modifies this
      ensures Valid()
      ensures var after := Released(old(NodeOf(network)), id, config, now);
        && queue == old(queue)[network := after.queue]
        && temporaryQueue == if network in old(temporaryQueue) then old(temporaryQueue)[network := after.temp]
                             else old(temporaryQueue)
    {
      var q := if network in queue then queue[network] else [];
      if config.Custom? {
        var room := EvictRetainTrim(q, config.Capacity(), config.Expiry(), now);
        EvictedMeaning(q, config.Capacity(), config.Expiry(), now);
        q := room;
      }
      if network in temporaryQueue && id in temporaryQueue[network] {
        var entry := temporaryQueue[network][id];
        temporaryQueue := temporaryQueue[network := temporaryQueue[network] - {id}];
        InsertCorrect(q, entry);
        q := Insert(q, entry);
      }
      queue := queue[network := q];
    }

    method HandleDataConfirmation(network: string, id: string, replicaPeers: u64, now: u64)
      requires Valid()
      modifies this
      ensures Valid()
      ensures var node := old(NodeOf(network));
        var peersCount := config.PeersCount(replicaPeers);
        var counted := node.(temp := Counted(node.temp, id, peersCount));
        NodeOf(network) == if Confirmed(counted.temp, id, peersCount) then Released(counted, id, config, now) else counted
      ensures forall n | n != network :: NodeOf(n) == old(NodeOf(n))
    {
      var confirmed := CountConfirmation(network, id, replicaPeers);
      if confirmed {
        MoveConfirmed(network, id, now);
      }
    }

    /** One round of advertising the aged part of the buffer. */
    method Advertise(network: string, peer: PeerId, now: u64) returns (gossip: Option<Gossip.Message>)
      requires Valid()
      ensures gossip ==
        if network !in queue then None
        else Some(AdvertisementOf(Aged(queue[network], config.AgingPeriod(), now), peer, network))
    {
      if network !in queue {
        return None;
      }
      var local := Aged(queue[network], config.AgingPeriod(), now);
      var minClock, maxClock := 0, 0;
      if local != [] {
        minClock, maxClock := local[0].lamportClock, local[|local| - 1].lamportClock;
      }
      var messageIds := Map(AdvertisedId, local);
      return Some(Gossip.Advertisement(peer, network, minClock, maxClock, messageIds));
    }

    /** Comparing an advertisement with the local buffer. The result is the request to send
        to the advertiser. */
    method PrepareSync(self: PeerId, network: string, lastClock: Option<u64>, advertiser: string,
                       minClock: u64, maxClock: u64, advertised: seq<string>)
      returns (request: Option<seq<string>>)
      requires Valid()
      ensures request == if network !in queue then None
        else SyncRequest(self, queue[network], lastClock, advertiser, minClock, maxClock, advertised)
    {
      if lastClock.Some? && lastClock.value >= maxClock {
        return None;
      }
      if network !in queue {
        return None;
      }
      var missing := Missing(self, queue[network], minClock, maxClock, advertised);
      if missing != [] && ParsePeer(advertiser).Some? {
        return Some(missing);
      }
      return None;
    }

    /** Serving a request. */
    method PullMissingData(network: string, ids: seq<string>) returns (blobs: seq<string>)
      requires Valid()
      requires ids != []
      ensures blobs == if network in queue then [Codec.Marshalled(Selected(queue[network], ids))] else []
      ensures network in queue && ids[0] == "" ==> blobs == [Codec.Marshalled(queue[network])]
    {
      if network in queue {
        var result := Codec.MarshalEntries(Selected(queue[network], ids));
        return [result];
      }
      return [];
    }

    /** Inserting the entries of a response one by one. */
    method InsertResponse(network: string, blobs: seq<string>)
      requires Valid()
      modifies this`queue
      ensures Valid()
      ensures queue == if network in old(queue)
                       then old(queue)[network := InsertAll(old(queue)[network], Codec.Unmarshalled(blobs))]
                       else old(queue)
    {
      var response := Codec.UnmarshalMessages(blobs);
      if network in queue {
        ghost var before := queue[network];
        var local := queue[network];
        for i := 0 to |response|
          invariant queue == old(queue)
          invariant Sorted(local) && local == InsertAll(before, response[..i])
        {
          InsertAllStep(before, response, i);
          InsertCorrect(local, response[i]);
          local := Insert(local, response[i]);
        }
        assert response[..|response|] == response;
        queue := queue[network := local];
      }
    }

    /** Cloning the buffer of another node; `reply` is the outcome of the pull request. */
    method ReplicateBuffer(network: string, reply: Result<seq<string>, NetworkError>) returns (r: Result<(), NetworkError>)
      requires Valid()
      modifies this`queue
      ensures Valid()
      ensures network !in old(queue) ==> r == Err(MissingReplNetwork)
      ensures network in old(queue) ==> r == (match reply case Ok(_) => Ok(()) case Err(error) => Err(error))
      ensures queue == if network in old(queue) && reply.Ok?
                       then old(queue)[network := InsertAll(old(queue)[network], Codec.Unmarshalled(reply.value))]
                       else old(queue)
    {
      if network !in queue {
        return Err(MissingReplNetwork);
      }
      match reply {
        case Err(error) =>
          return Err(error);
        case Ok(blobs) =>
          InsertResponse(network, blobs);
          return Ok(());
      }
    }
  }

  /** What is read from the answer to a clone request is what the server holds, in order. */
  lemma CloneIsWhole(held: seq<Entry>)
    requires forall e | e in held :: Codec.Clean(e) && e.confirmations == None
    ensures Codec.Unmarshalled([Codec.Marshalled(Selected(held, [""]))]) == held
  {
    Codec.RoundTrip(held);
    Codec.UnconfirmedSame(held);
  }

  /** Cloning, from the request to the inserted reply. Afterwards the cloner holds what it held,
      an entry for every key of the server, and nothing else. */
  method CloneBuffer(server: ReplicaBufferQueue, cloner: ReplicaBufferQueue, network: string) returns (r: Result<(), NetworkError>)
    requires server.Valid() && cloner.Valid() && server != cloner
    requires network in server.queue && network in cloner.queue
    requires forall e | e in server.queue[network] :: Codec.Clean(e) && e.confirmations == None
    modifies cloner`queue
    ensures r == Ok(()) && cloner.Valid() && network in cloner.queue
    ensures forall e | e in old(cloner.queue[network]) :: e in cloner.queue[network]
    ensures forall e | e in server.queue[network] :: HasKey(cloner.queue[network], e)
    ensures forall e | e in cloner.queue[network] :: e in old(cloner.queue[network]) || e in server.queue[network]
    ensures forall n | n != network :: cloner.NodeOf(n) == old(cloner.NodeOf(n))
  {
    var blobs := server.PullMissingData(network, [""]);
    CloneIsWhole(server.queue[network]);
    InsertAllCorrect(cloner.queue[network], Codec.Unmarshalled(blobs));
    r := cloner.ReplicateBuffer(network, Ok(blobs));
  }
}
