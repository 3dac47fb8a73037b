/**
 One round of anti-entropy. From any situation without an exchange under way, whatever rounds
 went before, if every ordered pair of nodes completes one exchange, in any interleaving of
 their advertise, compare, serve and absorb steps and while nothing is published, received or
 consumed, then all nodes hold the same messages, except that a node never holds its own. With
 publications and receipts in between, they hold at least all that was there at the start.
 */
module Convergence {
  import opened Wrappers
  import opened U64
  import opened Framing
  import opened Entries
  import opened OrderedBuffer
  import opened Eviction
  import opened ReplicaBuffer
  import opened AntiEntropy
  import opened EventualNet
  import Codec
  import Gossip
  import Seqs

  ghost predicate IsSync(a: Action) {
    a.Advertise? || a.Compare? || a.Serve? || a.Absorb?
  }

  /** No exchange is under way. */
  ghost predicate NothingUnderWay(s0: Net) {
    s0.ads == {} && s0.requests == {} && s0.responses == {}
  }

  /** A situation from which completed exchanges are counted anew. */
  ghost function NewRound(s: Net): Net {
    s.(synced := {})
  }

  /** The exchanges completed by some steps. */
  ghost function Exchanged(par: Params, s0: Net, actions: seq<Action>): set<Pair>
    requires ValidParams(par)
  {
    Steps(par, NewRound(s0), actions).synced
  }

  /** A node advertises only when all it held at the start has aged. */
  ghost predicate AllAged(par: Params, s0: Net, actions: seq<Action>) {
    forall a | a in actions && a.Advertise? && a.node in s0.nodes ::
      forall e | e in s0.nodes[a.node].queue :: IsAged(e, par.config.AgingPeriod(), a.now)
  }

  /** No node has consumed up to the latest clock that another node holds. */
  ghost predicate NotOvertaken(s0: Net) {
    forall p, q | p in s0.nodes && q in s0.nodes && p != q && s0.nodes[p].queue != [] ::
      s0.nodes[q].lastClock < s0.nodes[p].queue[|s0.nodes[p].queue| - 1].lamportClock
  }

  /** The printed name of a node occurs only in the advertised ids of its own messages. */
  ghost predicate NamesApart(par: Params, s0: Net) {
    forall id, q | id in s0.published && q in par.members && q != s0.published[id].publisher ::
      !Contains(id + Codec.ENTRY_DELIMITER + s0.published[id].publisher, q)
  }

  ghost predicate Holds(s: Net, p: PeerId, id: string) {
    p in s.nodes && HoldsId(s.nodes[p].queue, id)
  }

  /** Some node held the message at the start. */
  ghost predicate Initially(s0: Net, id: string) {
    exists p :: Holds(s0, p, id)
  }

  /** The start buffer of `from` holds the message, and `to` did not publish it. */
  ghost predicate Due(s0: Net, from: PeerId, to: PeerId, id: string) {
    Holds(s0, from, id) && id in s0.published && s0.published[id].publisher != to
  }

  /** Since the start nothing was lost or consumed. */
  ghost predicate Grown(s0: Net, s: Net) {
    && Extends(s0, s)
    && s.nodes.Keys == s0.nodes.Keys
    && forall p | p in s0.nodes ::
         && s.nodes[p].lastClock == s0.nodes[p].lastClock
         && forall e | e in s0.nodes[p].queue :: e in s.nodes[p].queue
  }

  ghost predicate NothingNew(s0: Net, s: Net) {
    && s.published == s0.published
    && (forall p, id | Holds(s, p, id) :: Initially(s0, id))
    && (forall ad, e | ad in s.ads && e in ad.local :: Initially(s0, e.messageId))
    && (forall r, e | r in s.responses && e in Codec.Unmarshalled(r.blobs) :: Initially(s0, e.messageId))
  }

  ghost predicate AdCovers(s0: Net, ad: Ad) {
    ad.from in s0.nodes && forall e | e in s0.nodes[ad.from].queue :: e in ad.local
  }

  ghost predicate RequestCovers(s0: Net, s: Net, r: Request) {
    forall id | Due(s0, r.to, r.from, id) :: Holds(s, r.from, id) || id in r.ids
  }

  ghost predicate ResponseCovers(s0: Net, s: Net, r: Response) {
    forall id | Due(s0, r.from, r.to, id) :: Holds(s, r.to, id) || HoldsId(Codec.Unmarshalled(r.blobs), id)
  }

  ghost predicate PairCovers(s0: Net, s: Net, pair: Pair) {
    forall id | Due(s0, pair.from, pair.to, id) :: Holds(s, pair.to, id)
  }

  ghost predicate Covering(s0: Net, s: Net) {
    && (forall ad | ad in s.ads :: AdCovers(s0, ad))
    && (forall r | r in s.requests :: RequestCovers(s0, s, r))
    && (forall r | r in s.responses :: ResponseCovers(s0, s, r))
    && (forall pair | pair in s.synced :: PairCovers(s0, s, pair))
  }

  ghost predicate RoundInv(s0: Net, s: Net) {
    Grown(s0, s) && Covering(s0, s)
  }

  /** As long as no node loses a message, covering claims stay true. */
  lemma CoverStays(s0: Net, s: Net, t: Net)
    requires forall p, id | Holds(s, p, id) :: Holds(t, p, id)
    ensures forall r | RequestCovers(s0, s, r) :: RequestCovers(s0, t, r)
    ensures forall r | ResponseCovers(s0, s, r) :: ResponseCovers(s0, t, r)
    ensures forall pair | PairCovers(s0, s, pair) :: PairCovers(s0, t, pair)
  {
  }

  /** A step that changes no buffer keeps the messages each node holds. */
  lemma SameBuffers(s: Net, t: Net)
    requires t.nodes == s.nodes
    ensures forall p, id :: Holds(t, p, id) <==> Holds(s, p, id)
  {
  }

  lemma AdvertiseKeepsRound(par: Params, s0: Net, s: Net, p: PeerId, now: u64)
    requires RoundInv(s0, s) && p in s.nodes
    requires forall e | e in s0.nodes[p].queue :: IsAged(e, par.config.AgingPeriod(), now)
    ensures RoundInv(s0, DoAdvertise(par, s, p, now))
  {
    var t := DoAdvertise(par, s, p, now);
    SameBuffers(s, t);
    CoverStays(s0, s, t);
    AgedMeaning(s.nodes[p].queue, par.config.AgingPeriod(), now);
  }

  /** The advertised clocks reach beyond what the receiver consumed. */
  lemma NewerThanConsumed(s0: Net, s: Net, ad: Ad)
    requires Grown(s0, s) && NotOvertaken(s0) && AdCovers(s0, ad)
    requires ad.to in s.nodes && ad.to != ad.from && Sorted(ad.local)
    requires s0.nodes[ad.from].queue != []
    ensures !Overtaken(s, ad)
  {
    var start := s0.nodes[ad.from].queue;
    var last := start[|start| - 1];
    assert last in start && last in ad.local;
    SortedClocks(ad.local, last);
  }

  /** Whatever is due to the receiver of a covering advertisement, it holds or asks for. */
  lemma WantedCovers(par: Params, s0: Net, s: Net, ad: Ad, id: string)
    requires ValidParams(par) && PublishedInv(par, s) && NamesApart(par, s0)
    requires AdOk(par, s, ad) && AdCovers(s0, ad) && BufferOk(s0, ad.from, s0.nodes[ad.from])
    requires ad.to in s.nodes && BufferOk(s, ad.to, s.nodes[ad.to])
    requires Due(s0, ad.from, ad.to, id) && !Holds(s, ad.to, id)
    ensures id in Wanted(par, s, ad)
  {
    var e :| e in s0.nodes[ad.from].queue && e.messageId == id;
    assert Faithful(s0, e) && e in ad.local;
    assert AdvertisedId(e) == id + Codec.ENTRY_DELIMITER + s0.published[id].publisher;
    assert !Contains(AdvertisedId(e), ad.to);
    RequestMeaning(par, s, ad);
  }

  lemma CompareKeepsRound(par: Params, s0: Net, s: Net, ad: Ad)
    requires ValidParams(par) && Inv(par, s0) && Inv(par, s) && RoundInv(s0, s)
    requires NotOvertaken(s0) && NamesApart(par, s0)
    requires ad in s.ads && ad.to in s.nodes
    ensures RoundInv(s0, DoCompare(par, s, ad))
  {
    assert AdOk(par, s, ad) && AdCovers(s0, ad) && BufferOk(s, ad.to, s.nodes[ad.to]);
    forall id | Due(s0, ad.from, ad.to, id) && !Holds(s, ad.to, id)
      ensures !Overtaken(s, ad) && id in Wanted(par, s, ad)
    {
      assert BufferOk(s0, ad.from, s0.nodes[ad.from]);
      NewerThanConsumed(s0, s, ad);
      WantedCovers(par, s0, s, ad, id);
    }
    CompareResult(par, s, ad);
    CompareShape(par, s0, s, DoCompare(par, s, ad), ad);
  }

  lemma CompareShape(par: Params, s0: Net, s: Net, t: Net, ad: Ad)
    requires RoundInv(s0, s) && ad in s.ads && ad.to in s.nodes
    requires forall id | Due(s0, ad.from, ad.to, id) && !Holds(s, ad.to, id) ::
      !Overtaken(s, ad) && id in Wanted(par, s, ad)
    requires t ==
      if Overtaken(s, ad) || Wanted(par, s, ad) == []
      then s.(ads := s.ads - {ad}, synced := s.synced + {Pair(ad.from, ad.to)})
      else s.(ads := s.ads - {ad}, requests := s.requests + {Request(ad.from, ad.to, Wanted(par, s, ad))})
    ensures RoundInv(s0, t)
  {
    SameBuffers(s, t);
    CoverStays(s0, s, t);
  }

  /** What is read from a response is what the serving node holds under the requested ids. */
  lemma ServedRead(par: Params, s: Net, r: Request, e: Entry)
    requires ValidParams(par) && Inv(par, s) && r in s.requests && r.to in s.nodes && r.ids != []
    ensures e in Codec.Unmarshalled([Codec.Marshalled(Selected(s.nodes[r.to].queue, r.ids))]) <==>
      e in s.nodes[r.to].queue && e.messageId in r.ids
  {
    assert RequestOk(par, s, r) && BufferOk(s, r.to, s.nodes[r.to]);
    var queue := s.nodes[r.to].queue;
    forall x | x in queue ensures Codec.Clean(x) && x.confirmations == None {
      CleanAsPublished(par, s, x);
    }
    ServedIsHeld(queue, r.ids);
  }

  lemma ServeKeepsRound(par: Params, s0: Net, s: Net, r: Request)
    requires ValidParams(par) && Inv(par, s) && RoundInv(s0, s)
    requires r in s.requests && r.to in s.nodes && r.ids != []
    ensures RoundInv(s0, DoServe(s, r))
  {
    var queue := s.nodes[r.to].queue;
    var served := Codec.Unmarshalled([Codec.Marshalled(Selected(queue, r.ids))]);
    assert RequestCovers(s0, s, r);
    forall id | Due(s0, r.to, r.from, id) ensures Holds(s, r.from, id) || HoldsId(served, id) {
      assert Holds(s, r.from, id) || id in r.ids;
      var e :| e in s0.nodes[r.to].queue && e.messageId == id;
      ServedRead(par, s, r, e);
    }
    ServeShape(s0, s, DoServe(s, r), r, Response(r.from, r.to, [Codec.Marshalled(Selected(queue, r.ids))]));
  }

  lemma ServeShape(s0: Net, s: Net, t: Net, r: Request, q: Response)
    requires RoundInv(s0, s) && ResponseCovers(s0, s, q)
    requires t == s.(requests := s.requests - {r}, responses := s.responses + {q})
    ensures RoundInv(s0, t)
  {
    SameBuffers(s, t);
    CoverStays(s0, s, t);
  }

  lemma AbsorbHolds(par: Params, s: Net, r: Response)
    requires ValidParams(par) && Inv(par, s)
    requires r in s.responses && r.to in s.nodes
    ensures var t := DoAbsorb(s, r);
      && (forall p, id :: Holds(t, p, id) <==>
           Holds(s, p, id) || (p == r.to && HoldsId(Codec.Unmarshalled(r.blobs), id)))
      && (forall e | e in s.nodes[r.to].queue :: e in t.nodes[r.to].queue)
  {
    var t := DoAbsorb(s, r);
    assert BufferOk(s, r.to, s.nodes[r.to]);
    var queue, es := s.nodes[r.to].queue, Codec.Unmarshalled(r.blobs);
    InsertAllCorrect(queue, es);
    forall id | HoldsId(queue, id) ensures HoldsId(InsertAll(queue, es), id) {
      var e :| e in queue && e.messageId == id;
      assert e in InsertAll(queue, es);
    }
    forall id | HoldsId(es, id) ensures HoldsId(InsertAll(queue, es), id) {
      var e :| e in es && e.messageId == id;
      var x :| x in InsertAll(queue, es) && SameKey(x, e);
    }
  }

  lemma AbsorbKeepsRound(par: Params, s0: Net, s: Net, r: Response)
    requires ValidParams(par) && Inv(par, s) && RoundInv(s0, s)
    requires r in s.responses && r.to in s.nodes
    ensures RoundInv(s0, DoAbsorb(s, r))
  {
    AbsorbHolds(par, s, r);
    AbsorbShape(s0, s, DoAbsorb(s, r), r);
  }

  lemma AbsorbShape(s0: Net, s: Net, t: Net, r: Response)
    requires RoundInv(s0, s) && r in s.responses
    requires t == s.(responses := s.responses - {r}, nodes := t.nodes, synced := s.synced + {Pair(r.from, r.to)})
    requires t.nodes.Keys == s.nodes.Keys && r.to in s.nodes
    requires forall q | q in s.nodes && q != r.to :: t.nodes[q] == s.nodes[q]
    requires t.nodes[r.to] == s.nodes[r.to].(queue := t.nodes[r.to].queue)
    requires forall e | e in s.nodes[r.to].queue :: e in t.nodes[r.to].queue
    requires forall p, id :: Holds(t, p, id) <==>
      Holds(s, p, id) || (p == r.to && HoldsId(Codec.Unmarshalled(r.blobs), id))
    ensures RoundInv(s0, t)
  {
  }

  /** A step outside the exchanges that loses nothing and consumes nothing. */
  lemma OutsideKeepsRound(s0: Net, s: Net, t: Net)
    requires RoundInv(s0, s) && Grown(s, t)
    requires t.ads == s.ads && t.requests == s.requests && t.responses == s.responses && t.synced == s.synced
    ensures RoundInv(s0, t)
  {
    forall p, id | Holds(s, p, id) ensures Holds(t, p, id) {
      var e :| e in s.nodes[p].queue && e.messageId == id;
      assert e in t.nodes[p].queue;
    }
    CoverStays(s0, s, t);
  }

  lemma PublishGrows(par: Params, s: Net, p: PeerId, id: string, timestamp: u64, data: seq<string>)
    requires p in s.nodes && id !in s.published
    ensures var t := DoPublish(par, s, p, id, timestamp, data);
      Grown(s, t) && t.ads == s.ads && t.requests == s.requests && t.responses == s.responses && t.synced == s.synced
  {
  }

  /** A receipt into a buffer with room. */
  lemma ReceiptGrows(par: Params, s: Net, p: PeerId, e: Entry, now: u64)
    requires ValidParams(par) && p in s.nodes && BufferOk(s, p, s.nodes[p])
    requires |s.nodes[p].queue| < par.config.Capacity()
    ensures var node := Receipt(s.nodes[p], e, par.config, now);
      node.lastClock == s.nodes[p].lastClock && forall x | x in s.nodes[p].queue :: x in node.queue
  {
    EvictedMeaning(s.nodes[p].queue, par.config.Capacity(), par.config.Expiry(), now);
    InsertCorrect(s.nodes[p].queue, e);
  }

  lemma ReceiveGrows(par: Params, s: Net, k: Packet, now: u64)
    requires ValidParams(par) && Inv(par, s) && k in s.packets && k.to in s.nodes
    requires |s.nodes[k.to].queue| < par.config.Capacity()
    ensures var t := DoReceive(par, s, k, now);
      Grown(s, t) && t.ads == s.ads && t.requests == s.requests && t.responses == s.responses && t.synced == s.synced
  {
    PacketArrives(par, s, k);
    var m := s.published[k.id];
    var e := Entry(m.data, m.clock, m.timestamp, now, k.id, k.source, None);
    assert BufferOk(s, k.to, s.nodes[k.to]);
    ReceiptGrows(par, s, k.to, e, now);
    OneGrows(s, DoReceive(par, s, k, now), k.to, Receipt(s.nodes[k.to], e, par.config, now));
  }

  lemma OneGrows(s: Net, t: Net, p: PeerId, node: Replica)
    requires p in s.nodes && t.nodes == s.nodes[p := node] && t.published == s.published
    requires node.lastClock == s.nodes[p].lastClock && forall x | x in s.nodes[p].queue :: x in node.queue
    ensures Grown(s, t)
  {
  }

  lemma RoundBegins(s0: Net)
    requires NothingUnderWay(s0) && s0.synced == {}
    ensures RoundInv(s0, s0)
  {
  }

  /** Receipts find room in the buffer. */
  ghost predicate HasRoom(par: Params, s: Net, a: Action) {
    a.Receive? && a.packet.to in s.nodes ==> |s.nodes[a.packet.to].queue| < par.config.Capacity()
  }

  lemma StepKeepsRound(par: Params, s0: Net, s: Net, a: Action)
    requires ValidParams(par) && Inv(par, s0) && NotOvertaken(s0) && NamesApart(par, s0)
    requires Inv(par, s) && RoundInv(s0, s)
    requires !a.Consume? && AllAged(par, s0, [a]) && HasRoom(par, s, a)
    ensures RoundInv(s0, Step(par, s, a))
  {
    if Enabled(par, s, a) {
      assert a in [a];
      var t := Step(par, s, a);
      match a
      case Publish(p, id, timestamp, data) =>
        PublishGrows(par, s, p, id, timestamp, data);
        OutsideKeepsRound(s0, s, t);
      case Receive(k, now) =>
        ReceiveGrows(par, s, k, now);
        OutsideKeepsRound(s0, s, t);
      case Advertise(p, now) => AdvertiseKeepsRound(par, s0, s, p, now);
      case Compare(ad) => CompareKeepsRound(par, s0, s, ad);
      case Serve(r) => ServeKeepsRound(par, s0, s, r);
      case Absorb(r) => AbsorbKeepsRound(par, s0, s, r);
    }
  }

  /** Nothing is consumed, all buffers have room for what arrives, and published data survives
      the codecs. */
  ghost predicate Gentle(par: Params, s0: Net, actions: seq<Action>)
    requires ValidParams(par)
  {
    && SafeData(par, actions)
    && forall k | 0 <= k < |actions| :: !actions[k].Consume? && HasRoom(par, Steps(par, s0, actions[..k]), actions[k])
  }

  lemma {:induction false} RoundKeepsInv(par: Params, s0: Net, actions: seq<Action>)
    requires ValidParams(par) && Inv(par, s0) && NotOvertaken(s0) && NamesApart(par, s0)
    requires NothingUnderWay(s0) && s0.synced == {}
    requires AllAged(par, s0, actions) && Gentle(par, s0, actions)
    ensures Inv(par, Steps(par, s0, actions)) && RoundInv(s0, Steps(par, s0, actions))
    decreases |actions|
  {
    if actions == [] {
      RoundBegins(s0);
    } else {
      var before, a := actions[..|actions| - 1], actions[|actions| - 1];
      AgedParts(par, s0, actions);
      GentleParts(par, s0, actions);
      RoundKeepsInv(par, s0, before);
      StepKeepsInv(par, Steps(par, s0, before), a);
      StepKeepsRound(par, s0, Steps(par, s0, before), a);
    }
  }

  lemma GentleParts(par: Params, s0: Net, actions: seq<Action>)
    requires ValidParams(par) && actions != [] && Gentle(par, s0, actions)
    ensures var before, a := actions[..|actions| - 1], actions[|actions| - 1];
      && Gentle(par, s0, before) && !a.Consume? && HasRoom(par, Steps(par, s0, before), a)
      && (a.Publish? ==> WireSafe(par.network, a.id, a.data))
  {
    var before, a := actions[..|actions| - 1], actions[|actions| - 1];
    assert a in actions && forall b | b in before :: b in actions;
    forall k | 0 <= k < |before| ensures !before[k].Consume? && HasRoom(par, Steps(par, s0, before[..k]), before[k]) {
      assert before[..k] == actions[..k] && before[k] == actions[k];
    }
  }

  lemma SyncIsGentle(par: Params, s0: Net, actions: seq<Action>)
    requires ValidParams(par) && forall a | a in actions :: IsSync(a)
    ensures Gentle(par, s0, actions)
  {
    forall k | 0 <= k < |actions| ensures !actions[k].Consume? && HasRoom(par, Steps(par, s0, actions[..k]), actions[k]) {
      assert actions[k] in actions;
    }
  }

  // ---- Nothing new in an exchange --------------------------------------------------

  lemma StepBringsNothingNew(par: Params, s0: Net, s: Net, a: Action)
    requires ValidParams(par) && Inv(par, s) && NothingNew(s0, s) && IsSync(a)
    ensures NothingNew(s0, Step(par, s, a))
  {
    if Enabled(par, s, a) {
      match a
      case Advertise(p, now) =>
        SameBuffers(s, DoAdvertise(par, s, p, now));
        AgedMeaning(s.nodes[p].queue, par.config.AgingPeriod(), now);
        forall e | e in Aged(s.nodes[p].queue, par.config.AgingPeriod(), now) ensures Initially(s0, e.messageId) {
          assert Holds(s, p, e.messageId);
        }
      case Compare(ad) =>
        CompareResult(par, s, ad);
        SameBuffers(s, DoCompare(par, s, ad));
      case Serve(r) =>
        SameBuffers(s, DoServe(s, r));
        forall e | e in Codec.Unmarshalled([Codec.Marshalled(Selected(s.nodes[r.to].queue, r.ids))])
          ensures Initially(s0, e.messageId)
        {
          ServedRead(par, s, r, e);
          assert Holds(s, r.to, e.messageId);
        }
      case Absorb(r) =>
        AbsorbHolds(par, s, r);
        forall p, id | Holds(DoAbsorb(s, r), p, id) ensures Initially(s0, id) {
        }
    }
  }

  lemma {:induction false} SyncBringsNothingNew(par: Params, s0: Net, actions: seq<Action>)
    requires ValidParams(par) && Inv(par, s0) && NothingUnderWay(s0) && forall a | a in actions :: IsSync(a)
    ensures Inv(par, Steps(par, s0, actions)) && NothingNew(s0, Steps(par, s0, actions))
    decreases |actions|
  {
    if actions != [] {
      var before, a := actions[..|actions| - 1], actions[|actions| - 1];
      assert a in actions && forall b | b in before :: b in actions;
      SyncBringsNothingNew(par, s0, before);
      StepKeepsInv(par, Steps(par, s0, before), a);
      StepBringsNothingNew(par, s0, Steps(par, s0, before), a);
    }
  }

  lemma AgedParts(par: Params, s0: Net, actions: seq<Action>)
    requires actions != [] && AllAged(par, s0, actions)
    ensures var before, a := actions[..|actions| - 1], actions[|actions| - 1];
      AllAged(par, s0, before) && AllAged(par, s0, [a])
  {
  }

  lemma StepsAppend(par: Params, s: Net, actions: seq<Action>, a: Action)
    requires ValidParams(par)
    ensures Steps(par, s, actions + [a]) == Step(par, Steps(par, s, actions), a)
  {
  }

  lemma StepsOne(par: Params, s: Net, a: Action)
    requires ValidParams(par)
    ensures Steps(par, s, [a]) == Step(par, s, a)
  {
  }

  lemma {:induction false} StepsPrefix(par: Params, s: Net, a: Action, rest: seq<Action>)
    requires ValidParams(par)
    ensures Steps(par, s, [a] + rest) == Steps(par, Step(par, s, a), rest)
    decreases |rest|
  {
    if rest == [] {
      assert [a] + rest == [a];
      StepsOne(par, s, a);
    } else {
      var k := |rest| - 1;
      StepsPrefix(par, s, a, rest[..k]);
      StepsAppend(par, s, [a] + rest[..k], rest[k]);
      assert [a] + rest == [a] + rest[..k] + [rest[k]];
    }
  }

  /** The buffer of `q` after a pull of some ids from `p`. */
  function PulledQueue(s: Net, p: PeerId, q: PeerId, ids: seq<string>): seq<Entry>
    requires p in s.nodes && q in s.nodes && ids != []
  {
    InsertAll(s.nodes[q].queue, Codec.Unmarshalled([Codec.Marshalled(Selected(s.nodes[p].queue, ids))]))
  }

  lemma RequestCompletes(par: Params, s: Net, r: Request) returns (actions: seq<Action>)
    requires ValidParams(par) && r in s.requests && r.ids != [] && r.to in s.nodes && r.from in s.nodes
    ensures |actions| <= 2 && forall a | a in actions :: IsSync(a) && !a.Advertise?
    ensures var t := Steps(par, s, actions);
      && Pair(r.to, r.from) in t.synced && r.from in t.nodes
      && t.nodes[r.from].queue == PulledQueue(s, r.to, r.from, r.ids)
  {
    var response := Response(r.from, r.to, [Codec.Marshalled(Selected(s.nodes[r.to].queue, r.ids))]);
    StepsOne(par, s, Serve(r));
    assert Step(par, s, Serve(r)) == DoServe(s, r);
    assert response in DoServe(s, r).responses;
    StepsAppend(par, s, [Serve(r)], Absorb(response));
    actions := [Serve(r)] + [Absorb(response)];
  }

  lemma AdCompletes(par: Params, s: Net, ad: Ad) returns (actions: seq<Action>)
    requires ValidParams(par) && Inv(par, s) && ad in s.ads
    ensures |actions| <= 3 && forall a | a in actions :: IsSync(a) && !a.Advertise?
    ensures ad.from in s.nodes && ad.to in s.nodes
    ensures var t := Steps(par, s, actions);
      && Pair(ad.from, ad.to) in t.synced && ad.to in t.nodes
      && t.nodes[ad.to].queue ==
           if Overtaken(s, ad) || Wanted(par, s, ad) == [] then s.nodes[ad.to].queue
           else PulledQueue(s, ad.from, ad.to, Wanted(par, s, ad))
  {
    assert AdOk(par, s, ad);
    CompareResult(par, s, ad);
    var t := DoCompare(par, s, ad);
    assert Step(par, s, Compare(ad)) == t;
    if Overtaken(s, ad) || Wanted(par, s, ad) == [] {
      StepsOne(par, s, Compare(ad));
      actions := [Compare(ad)];
    } else {
      var r := Request(ad.from, ad.to, Wanted(par, s, ad));
      var rest := RequestCompletes(par, t, r);
      StepsPrefix(par, s, Compare(ad), rest);
      actions := [Compare(ad)] + rest;
    }
  }

  /** Everything the advertiser holds is aged, and nothing keeps the receiver from asking:
      then what the advertisement makes it pull brings all that is due. */
  lemma PullBringsDue(par: Params, s: Net, ad: Ad, id: string)
    requires ValidParams(par) && Inv(par, s) && NamesApart(par, s)
    requires AdOk(par, s, ad) && AdCovers(s, ad) && ad.to in s.nodes
    requires Due(s, ad.from, ad.to, id)
    ensures Holds(s, ad.to, id) ||
      (Wanted(par, s, ad) != [] && HoldsId(PulledQueue(s, ad.from, ad.to, Wanted(par, s, ad)), id))
  {
    if !Holds(s, ad.to, id) {
      assert BufferOk(s, ad.from, s.nodes[ad.from]) && BufferOk(s, ad.to, s.nodes[ad.to]);
      WantedCovers(par, s, s, ad, id);
      var ids, held := Wanted(par, s, ad), s.nodes[ad.from].queue;
      forall e | e in held ensures Codec.Clean(e) && e.confirmations == None {
        CleanAsPublished(par, s, e);
      }
      RequestMeaning(par, s, ad);
      assert "" !in ids;
      ServedIsHeld(held, ids);
      var e :| e in held && e.messageId == id;
      PulledHolds(s, ad.from, ad.to, ids, e);
    }
  }

  lemma PulledHolds(s: Net, p: PeerId, q: PeerId, ids: seq<string>, e: Entry)
    requires p in s.nodes && q in s.nodes && ids != [] && Sorted(s.nodes[q].queue)
    requires e in Codec.Unmarshalled([Codec.Marshalled(Selected(s.nodes[p].queue, ids))])
    ensures HoldsId(PulledQueue(s, p, q, ids), e.messageId)
  {
    InsertAllCorrect(s.nodes[q].queue, Codec.Unmarshalled([Codec.Marshalled(Selected(s.nodes[p].queue, ids))]));
    var x :| x in PulledQueue(s, p, q, ids) && SameKey(x, e);
  }

  /** What `q` consumed last is at least as late as all that `p` holds. */
  predicate Ahead(s: Net, q: PeerId, p: PeerId)
    requires p in s.nodes && q in s.nodes
  {
    var queue := s.nodes[p].queue;
    s.nodes[q].lastClock >= if queue == [] then 0 else queue[|queue| - 1].lamportClock
  }

  /** The four steps of an exchange and the buffer they leave at the receiver. */
  lemma ExchangeSteps(par: Params, s: Net, p: PeerId, q: PeerId, now: u64, ad: Ad) returns (actions: seq<Action>)
    requires ValidParams(par) && Inv(par, s) && p in s.nodes && q in par.members && p != q
    requires var local := Aged(s.nodes[p].queue, par.config.AgingPeriod(), now);
      ad == Ad(q, p, Gossip.Framed(AdvertisementOf(local, p, par.network)), local)
    ensures |actions| <= 4 && forall a | a in actions :: IsSync(a) && (a.Advertise? ==> a.node == p && a.now == now)
    ensures q in s.nodes && AdOk(par, s, ad)
    ensures var t := Steps(par, s, actions);
      && Pair(p, q) in t.synced && q in t.nodes
      && t.nodes[q].queue == if Overtaken(s, ad) || Wanted(par, s, ad) == [] then s.nodes[q].queue
                             else PulledQueue(s, p, q, Wanted(par, s, ad))
  {
    var a := Advertise(p, now);
    var s1 := DoAdvertise(par, s, p, now);
    assert Step(par, s, a) == s1 && ad in s1.ads;
    AdvertiseKeepsInv(par, s, p, now);
    assert AdOk(par, s1, ad);
    var rest := AdCompletes(par, s1, ad);
    actions := [a] + rest;
    StepsPrefix(par, s, a, rest);
  }

  /** From any situation an exchange can be completed in at most four steps. It brings `q`
      all that is due from `p` exactly if `q` has not consumed past what `p` holds, or lacked
      nothing in the first place. */
  lemma ExchangeExactly(par: Params, s: Net, p: PeerId, q: PeerId, now: u64) returns (actions: seq<Action>)
    requires ValidParams(par) && SafelyReachable(par, s) && NamesApart(par, s)
    requires p in par.members && q in par.members && p != q && p in s.nodes && q in s.nodes
    requires forall e | e in s.nodes[p].queue :: IsAged(e, par.config.AgingPeriod(), now)
    ensures |actions| <= 4 && forall a | a in actions :: IsSync(a) && (a.Advertise? ==> a.node == p && a.now == now)
    ensures Pair(p, q) in Steps(par, s, actions).synced
    ensures (forall id | Due(s, p, q, id) :: Holds(Steps(par, s, actions), q, id)) <==>
      !Ahead(s, q, p) || forall id | Due(s, p, q, id) :: Holds(s, q, id)
  {
    ReachableInv(par, s);
    var queue := s.nodes[p].queue;
    Seqs.FilterIn((e: Entry) => IsAged(e, par.config.AgingPeriod(), now), queue);
    var ad := Ad(q, p, Gossip.Framed(AdvertisementOf(queue, p, par.network)), queue);
    actions := ExchangeSteps(par, s, p, q, now, ad);
    ExchangeOutcome(par, s, ad, Steps(par, s, actions));
  }

  lemma ExchangeOutcome(par: Params, s: Net, ad: Ad, t: Net)
    requires ValidParams(par) && Inv(par, s) && NamesApart(par, s) && AdOk(par, s, ad)
    requires ad.from in s.nodes && ad.to in s.nodes && ad.local == s.nodes[ad.from].queue && ad.to in t.nodes
    requires t.nodes[ad.to].queue ==
      if Overtaken(s, ad) || Wanted(par, s, ad) == [] then s.nodes[ad.to].queue
      else PulledQueue(s, ad.from, ad.to, Wanted(par, s, ad))
    ensures (forall id | Due(s, ad.from, ad.to, id) :: Holds(t, ad.to, id)) <==>
      !Ahead(s, ad.to, ad.from) || forall id | Due(s, ad.from, ad.to, id) :: Holds(s, ad.to, id)
  {
    assert Overtaken(s, ad) <==> Ahead(s, ad.to, ad.from);
    forall id | Due(s, ad.from, ad.to, id) ensures Holds(s, ad.to, id) || (!Overtaken(s, ad) ==> Holds(t, ad.to, id)) {
      PullBringsDue(par, s, ad, id);
    }
    PullsKeep(par, s, ad, t.nodes[ad.to].queue);
  }

  /** No pull loses a message. */
  lemma PullsKeep(par: Params, s: Net, ad: Ad, after: seq<Entry>)
    requires Inv(par, s) && ad.from in s.nodes && ad.to in s.nodes
    requires after == if Overtaken(s, ad) || Wanted(par, s, ad) == [] then s.nodes[ad.to].queue
                      else PulledQueue(s, ad.from, ad.to, Wanted(par, s, ad))
    ensures forall id | Holds(s, ad.to, id) :: HoldsId(after, id)
  {
    var queue := s.nodes[ad.to].queue;
    assert BufferOk(s, ad.to, s.nodes[ad.to]);
    forall id | Holds(s, ad.to, id) ensures HoldsId(after, id) {
      var e :| e in queue && e.messageId == id;
      if !(Overtaken(s, ad) || Wanted(par, s, ad) == []) {
        var ids := Wanted(par, s, ad);
        InsertAllCorrect(queue, Codec.Unmarshalled([Codec.Marshalled(Selected(s.nodes[ad.from].queue, ids))]));
      }
      assert e in after;
    }
  }

  /** Every ordered pair of distinct members has completed an exchange. */
  ghost predicate AllPairs(par: Params, exchanged: set<Pair>) {
    forall p, q | p in par.members && q in par.members && p != q :: Pair(p, q) in exchanged
  }

  /** The history of exchanges has no influence on anything else. */
  lemma HistoryIsGhost(par: Params, s: Net, t: Net, a: Action)
    requires ValidParams(par) && NewRound(s) == NewRound(t)
    ensures NewRound(Step(par, s, a)) == NewRound(Step(par, t, a))
  {
  }

  lemma {:induction false} HistoryIsGhostInSteps(par: Params, s: Net, actions: seq<Action>)
    requires ValidParams(par)
    ensures NewRound(Steps(par, s, actions)) == NewRound(Steps(par, NewRound(s), actions))
    decreases |actions|
  {
    if actions != [] {
      var before := actions[..|actions| - 1];
      HistoryIsGhostInSteps(par, s, before);
      HistoryIsGhost(par, Steps(par, s, before), Steps(par, NewRound(s), before), actions[|actions| - 1]);
    }
  }

  lemma NewRoundInv(par: Params, s: Net)
    requires Inv(par, s)
    ensures Inv(par, NewRound(s))
  {
    var t := NewRound(s);
    forall p | p in s.nodes ensures BufferOk(t, p, t.nodes[p]) {
      assert BufferOk(s, p, s.nodes[p]);
      BuffersStay(s, t, p, s.nodes[p]);
    }
    SyncStays(par, s, t);
  }

  /** After a full round a node holds every message that some node held at the start, unless it
      published it itself. The round starts from any situation that a run can lead to in which
      no exchange is under way, also after earlier rounds; messages may be published and
      received meanwhile, as long as nothing is evicted or consumed. */
  lemma RoundDelivers(par: Params, s0: Net, actions: seq<Action>, q: PeerId, id: string)
    requires ValidParams(par) && SafelyReachable(par, s0) && q in par.members
    requires NothingUnderWay(s0) && NotOvertaken(s0) && NamesApart(par, s0) && AllAged(par, s0, actions)
    requires Gentle(par, s0, actions) && AllPairs(par, Exchanged(par, s0, actions))
    requires Initially(s0, id) && id in s0.published && s0.published[id].publisher != q
    ensures Holds(Steps(par, s0, actions), q, id)
  {
    var t0 := NewRound(s0);
    ReachableInv(par, s0);
    NewRoundInv(par, s0);
    NewRoundStart(par, s0, actions);
    RoundKeepsInv(par, t0, actions);
    HeldOrPulled(par, t0, Steps(par, t0, actions), q, id);
    HistoryIsGhostInSteps(par, s0, actions);
    NewRoundNodes(Steps(par, s0, actions), Steps(par, t0, actions));
    SameBuffers(Steps(par, t0, actions), Steps(par, s0, actions));
  }

  lemma NewRoundNodes(s: Net, t: Net)
    requires NewRound(s) == NewRound(t)
    ensures s.nodes == t.nodes
  {
    assert NewRound(s).nodes == s.nodes && NewRound(t).nodes == t.nodes;
  }

  lemma NewRoundStart(par: Params, s0: Net, actions: seq<Action>)
    requires ValidParams(par) && NothingUnderWay(s0) && NotOvertaken(s0) && NamesApart(par, s0)
    requires AllAged(par, s0, actions) && Gentle(par, s0, actions)
    ensures var t0 := NewRound(s0);
      NothingUnderWay(t0) && NotOvertaken(t0) && NamesApart(par, t0) && AllAged(par, t0, actions) && Gentle(par, t0, actions)
    ensures forall id :: Initially(NewRound(s0), id) <==> Initially(s0, id)
  {
    var t0 := NewRound(s0);
    SameBuffers(s0, t0);
    forall k | 0 <= k < |actions| ensures !actions[k].Consume? && HasRoom(par, Steps(par, t0, actions[..k]), actions[k]) {
      HistoryIsGhostInSteps(par, s0, actions[..k]);
      NewRoundNodes(Steps(par, s0, actions[..k]), Steps(par, t0, actions[..k]));
      assert HasRoom(par, Steps(par, s0, actions[..k]), actions[k]);
    }
  }

  /** If nothing but the exchanges happens, a node holds exactly these messages, each with the
      content its publisher gave it. */
  lemma RoundConverges(par: Params, s0: Net, actions: seq<Action>, q: PeerId)
    requires ValidParams(par) && SafelyReachable(par, s0) && q in par.members
    requires NothingUnderWay(s0) && NotOvertaken(s0) && NamesApart(par, s0) && AllAged(par, s0, actions)
    requires (forall a | a in actions :: IsSync(a)) && AllPairs(par, Exchanged(par, s0, actions))
    ensures var s := Steps(par, s0, actions);
      && (forall id :: Holds(s, q, id) <==> Initially(s0, id) && id in s0.published && s0.published[id].publisher != q)
      && q in s.nodes && Sorted(s.nodes[q].queue)
      && (forall e | e in s.nodes[q].queue :: Faithful(s0, e))
  {
    var s := Steps(par, s0, actions);
    ReachableInv(par, s0);
    SyncBringsNothingNew(par, s0, actions);
    assert BufferOk(s, q, s.nodes[q]);
    forall id ensures Holds(s, q, id) <==> Initially(s0, id) && id in s0.published && s0.published[id].publisher != q {
      if Holds(s, q, id) {
        var e :| e in s.nodes[q].queue && e.messageId == id;
        assert Faithful(s, e);
      }
      if Initially(s0, id) && id in s0.published && s0.published[id].publisher != q {
        SyncIsGentle(par, s0, actions);
        RoundDelivers(par, s0, actions, q, id);
      }
    }
  }

  lemma SyncedGrows(par: Params, s: Net, a: Action)
    requires ValidParams(par)
    ensures s.synced <= Step(par, s, a).synced
  {
  }

  lemma {:induction false} SyncStepsKeepInv(par: Params, s: Net, actions: seq<Action>)
    requires ValidParams(par) && Inv(par, s) && forall a | a in actions :: IsSync(a)
    ensures Inv(par, Steps(par, s, actions)) && s.synced <= Steps(par, s, actions).synced
    decreases |actions|
  {
    if actions != [] {
      var before, a := actions[..|actions| - 1], actions[|actions| - 1];
      assert a in actions && forall b | b in before :: b in actions;
      SyncStepsKeepInv(par, s, before);
      StepKeepsInv(par, Steps(par, s, before), a);
      SyncedGrows(par, Steps(par, s, before), a);
    }
  }

  /** Any set of exchanges can be completed one after the other. */
  lemma {:induction false} PairsComplete(par: Params, s: Net, pairs: set<Pair>, now: u64) returns (actions: seq<Action>)
    requires ValidParams(par) && Inv(par, s)
    requires forall pair | pair in pairs :: pair.from in par.members && pair.to in par.members && pair.from != pair.to
    ensures forall a | a in actions :: IsSync(a) && (a.Advertise? ==> a.now == now)
    ensures pairs <= Steps(par, s, actions).synced
    decreases |pairs|
  {
    actions := [];
    if pairs != {} {
      var pair :| pair in pairs;
      var local := Aged(s.nodes[pair.from].queue, par.config.AgingPeriod(), now);
      var ad := Ad(pair.to, pair.from, Gossip.Framed(AdvertisementOf(local, pair.from, par.network)), local);
      var first := ExchangeSteps(par, s, pair.from, pair.to, now, ad);
      SyncStepsKeepInv(par, s, first);
      var rest := PairsComplete(par, Steps(par, s, first), pairs - {pair}, now);
      SyncStepsKeepInv(par, Steps(par, s, first), rest);
      StepsMore(par, s, first, rest);
      actions := first + rest;
    }
  }

  /** A full round is possible from every situation in which all buffers have aged. */
  lemma RoundCompletes(par: Params, s0: Net, now: u64) returns (actions: seq<Action>)
    requires ValidParams(par) && SafelyReachable(par, s0)
    requires forall p, e | p in s0.nodes && e in s0.nodes[p].queue ::
      IsAged(e, par.config.AgingPeriod(), now)
    ensures (forall a | a in actions :: IsSync(a)) && AllAged(par, s0, actions)
    ensures AllPairs(par, Exchanged(par, s0, actions))
  {
    ReachableInv(par, s0);
    NewRoundInv(par, s0);
    var pairs := set p, q | p in par.members && q in par.members && p != q :: Pair(p, q);
    actions := PairsComplete(par, NewRound(s0), pairs, now);
    forall p, q | p in par.members && q in par.members && p != q ensures Pair(p, q) in Exchanged(par, s0, actions) {
      assert Pair(p, q) in pairs;
    }
  }

  lemma HeldOrPulled(par: Params, s0: Net, s: Net, q: PeerId, id: string)
    requires NodesInv(par, s0) && RoundInv(s0, s) && AllPairs(par, s.synced) && q in par.members
    requires Initially(s0, id) && id in s0.published && s0.published[id].publisher != q
    ensures Holds(s, q, id)
  {
  }

  /** An entry without its local arrival time. */
  function Content(e: Entry): Entry {
    e.(incomingTimestamp := 0)
  }

  function FromOthers(queue: seq<Entry>, p: PeerId, q: PeerId): seq<Entry> {
    Seqs.Map(Content, Seqs.Filter((e: Entry) => e.sender != p && e.sender != q, queue))
  }

  lemma FromOthersSorted(queue: seq<Entry>, p: PeerId, q: PeerId)
    requires Sorted(queue)
    ensures Sorted(FromOthers(queue, p, q))
  {
    FilterSorted((e: Entry) => e.sender != p && e.sender != q, queue);
  }

  lemma FromOthersIn(queue: seq<Entry>, p: PeerId, q: PeerId, x: Entry)
    ensures x in FromOthers(queue, p, q) <==>
      exists e :: e in queue && e.sender != p && e.sender != q && Content(e) == x
  {
    var others := Seqs.Filter((e: Entry) => e.sender != p && e.sender != q, queue);
    Seqs.FilterIn((e: Entry) => e.sender != p && e.sender != q, queue);
    MapIn(Content, others, x);
  }

  lemma SameContents(s0: Net, s: Net, p: PeerId, q: PeerId, x: Entry)
    requires p in s.nodes && q in s.nodes
    requires forall e | e in s.nodes[p].queue || e in s.nodes[q].queue :: Faithful(s0, e)
    requires forall id | id in s0.published && s0.published[id].publisher != p && s0.published[id].publisher != q ::
      Holds(s, p, id) ==> Holds(s, q, id)
    requires exists e :: e in s.nodes[p].queue && e.sender != p && e.sender != q && Content(e) == x
    ensures exists e :: e in s.nodes[q].queue && e.sender != p && e.sender != q && Content(e) == x
  {
  }

  /** Two nodes then deliver the messages of everyone else in the same order with the same
      contents. */
  lemma SameDelivery(par: Params, s0: Net, actions: seq<Action>, p: PeerId, q: PeerId)
    requires ValidParams(par) && SafelyReachable(par, s0) && p in par.members && q in par.members
    requires NothingUnderWay(s0) && NotOvertaken(s0) && NamesApart(par, s0) && AllAged(par, s0, actions)
    requires (forall a | a in actions :: IsSync(a)) && AllPairs(par, Exchanged(par, s0, actions))
    ensures var s := Steps(par, s0, actions);
      p in s.nodes && q in s.nodes && FromOthers(s.nodes[p].queue, p, q) == FromOthers(s.nodes[q].queue, p, q)
  {
    var s := Steps(par, s0, actions);
    RoundConverges(par, s0, actions, p);
    RoundConverges(par, s0, actions, q);
    SameOrder(s0, s, p, q);
  }

  lemma SameOrder(s0: Net, s: Net, p: PeerId, q: PeerId)
    requires p in s.nodes && q in s.nodes && Sorted(s.nodes[p].queue) && Sorted(s.nodes[q].queue)
    requires forall e | e in s.nodes[p].queue || e in s.nodes[q].queue :: Faithful(s0, e)
    requires forall id | id in s0.published && s0.published[id].publisher != p && s0.published[id].publisher != q ::
      Holds(s, p, id) <==> Holds(s, q, id)
    ensures FromOthers(s.nodes[p].queue, p, q) == FromOthers(s.nodes[q].queue, p, q)
  {
    FromOthersSorted(s.nodes[p].queue, p, q);
    FromOthersSorted(s.nodes[q].queue, p, q);
    forall x ensures x in FromOthers(s.nodes[p].queue, p, q) <==> x in FromOthers(s.nodes[q].queue, p, q) {
      FromOthersIn(s.nodes[p].queue, p, q, x);
      FromOthersIn(s.nodes[q].queue, p, q, x);
      if x in FromOthers(s.nodes[p].queue, p, q) {
        SameContents(s0, s, p, q, x);
      }
      if x in FromOthers(s.nodes[q].queue, p, q) {
        SameContents(s0, s, q, p, x);
      }
    }
    SortedUnique(FromOthers(s.nodes[p].queue, p, q), FromOthers(s.nodes[q].queue, p, q));
  }

  // ---- A message that only one node receives -----------------------------------------

  /** Among names of one length, the name of another node does not occur in an advertised id. */
  lemma NamesOfOneLength(p: PeerId, q: PeerId)
    requires |p| == |q| && p != q
    ensures !Contains("m" + Codec.ENTRY_DELIMITER + p, q)
  {
    var text := "m" + Codec.ENTRY_DELIMITER + p;
    assert '@' !in q && |text| == 4 + |q|;
    assert text[4..4 + |q|] == p;
    forall k | 0 <= k < 4 ensures !At(text, q, k) {
      assert text[k..k + |q|][3 - k] == '@';
    }
  }

  lemma PlainDataIsSafe(par: Params)
    requires ValidParams(par)
    ensures WireSafe(par.network, "m", ["d"]) && Gossip.ArrivedData(["d"]) == ["d"]
  {
    PlainIsClosed("d", Gossip.SEPARATOR);
    PlainIsClosed("d", Codec.DATA_DELIMITER);
    PlainIsClosed("d", Codec.FIELD_DELIMITER);
    PlainIsClosed("d", Codec.ENTRY_DELIMITER);
    PlainIsClosed("m", Codec.FIELD_DELIMITER);
    PlainIsClosed("m", Codec.ENTRY_DELIMITER);
    Gossip.DataUnchanged(["d"]);
    assert [par.network] + ["d"] == [par.network, "d"];
  }

  /** One node has received the only message, nothing was consumed, and nothing is under way. */
  ghost predicate OneHolder(par: Params, s: Net, p: PeerId, r: PeerId) {
    && s.nodes.Keys == par.members
    && r in s.nodes && s.nodes[r].queue == [Entry(["d"], 1, 0, 0, "m", p, None)]
    && (forall q | q in s.nodes :: s.nodes[q].lastClock == 0 && (q != r ==> s.nodes[q].queue == []))
    && s.published.Keys == {"m"} && s.published["m"].publisher == p
    && NothingUnderWay(s)
  }

  lemma BufferedByOne(par: Params, s: Net, p: PeerId, r: PeerId, k: Packet)
    requires ValidParams(par) && s.nodes.Keys == par.members && r in s.nodes && NothingUnderWay(s)
    requires forall q | q in s.nodes :: s.nodes[q].lastClock == 0 && s.nodes[q].queue == []
    requires s.published.Keys == {"m"} && s.published["m"].publisher == p
    requires k == Packet(r, "m", p, PublicationFrame(par, Publication(p, 1, 0, ["d"])))
    ensures OneHolder(par, DoReceive(par, s, k, 0), p, r)
  {
    PlainDataIsSafe(par);
    Gossip.ReplicatedArrives(0, 1, par.network, ["d"]);
    var empty, e: seq<Entry> := [], [Entry(["d"], 1, 0, 0, "m", p, None)];
    EvictedMeaning(empty, par.config.Capacity(), par.config.Expiry(), 0);
    assert Insert(empty, e[0]) == e;
  }

  lemma ReceivedByOne(par: Params, p: PeerId, r: PeerId) returns (before: seq<Action>)
    requires ValidParams(par) && p in par.members && r in par.members && p != r
    ensures SafeData(par, before) && OneHolder(par, Run(par, before), p, r)
  {
    var k := Packet(r, "m", p, PublicationFrame(par, Publication(p, 1, 0, ["d"])));
    var a, b := Publish(p, "m", 0, ["d"]), Receive(k, 0);
    before := [a, b];
    PlainDataIsSafe(par);
    TwoSteps(par, Init(par), a, b);
    PublishedThenReceived(par, Init(par), p, k, ["d"]);
    BufferedByOne(par, DoPublish(par, Init(par), p, "m", 0, ["d"]), p, r, k);
  }

  /** Such a situation meets the conditions of a round. */
  lemma OneHolderIsReady(par: Params, s: Net, p: PeerId, r: PeerId, now: u64)
    requires OneHolder(par, s, p, r) && now > par.config.AgingPeriod() && forall q | q in par.members :: |q| == |p|
    ensures NotOvertaken(s) && NamesApart(par, s)
    ensures forall q, e | q in s.nodes && e in s.nodes[q].queue :: IsAged(e, par.config.AgingPeriod(), now)
    ensures forall q :: Holds(s, q, "m") <==> q == r
  {
    forall id, q | id in s.published && q in par.members && q != s.published[id].publisher
      ensures !Contains(id + Codec.ENTRY_DELIMITER + s.published[id].publisher, q)
    {
      NamesOfOneLength(p, q);
    }
    assert s.nodes[r].queue[0].messageId == "m";
  }

  /** A run in which one node receives a message by gossip and all others only through a round:
      the conditions of the round can be met. */
  lemma PullsReachAll(par: Params, p: PeerId, r: PeerId) returns (before: seq<Action>, round: seq<Action>)
    requires ValidParams(par) && p in par.members && r in par.members && p != r
    requires par.config.AgingPeriod() < MAX && forall q | q in par.members :: |q| == |p|
    ensures var s0 := Run(par, before);
      && SafelyReachable(par, s0) && NothingUnderWay(s0) && NotOvertaken(s0) && NamesApart(par, s0)
      && AllAged(par, s0, round) && (forall a | a in round :: IsSync(a))
      && (forall q :: Holds(s0, q, "m") <==> q == r)
      && (forall q | q in par.members :: Holds(Steps(par, s0, round), q, "m") <==> q != p)
  {
    before := ReceivedByOne(par, p, r);
    var s0 := Run(par, before);
    OneHolderIsReady(par, s0, p, r, MAX);
    round := RoundCompletes(par, s0, MAX);
    assert Holds(s0, r, "m");
    forall q | q in par.members ensures Holds(Steps(par, s0, round), q, "m") <==> q != p {
      RoundConverges(par, s0, round, q);
    }
  }
}
