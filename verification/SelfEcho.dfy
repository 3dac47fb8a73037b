/**
 Whose messages a node can hold under eventual consistency. Data is attributable if no reader
 of a pulled text can take a part of it for an entry of its own. If all published data is,
 then every entry at every node carries the id and the publisher of a published message, and
 no node ever holds a message of its own. A message with a forged entry in its data breaks this.
 */
module SelfEcho {
  import opened Wrappers
  import opened U64
  import opened Seqs
  import opened Framing
  import opened Entries
  import opened OrderedBuffer
  import opened Eviction
  import opened ReplicaBuffer
  import opened AntiEntropy
  import opened EventualNet
  import opened Attribution
  import Codec
  import Decimal
  import Gossip

  predicate Traceable(data: seq<string>) {
    Attributable(Join(data, Codec.DATA_DELIMITER))
  }

  /** The entry names a published message and its publisher. */
  ghost predicate Attributed(s: Net, e: Entry) {
    && e.messageId in s.published && ValidMessageId(e.messageId)
    && e.sender == s.published[e.messageId].publisher
    && Traceable(e.data)
  }

  ghost predicate SourceOk(s: Net, p: PeerId, node: Replica) {
    && Sorted(node.queue)
    && forall e | e in node.queue || e in node.consumed :: Attributed(s, e) && e.sender != p
  }

  ghost predicate AdSources(par: Params, s: Net, ad: Ad) {
    && (forall e | e in ad.local :: Attributed(s, e))
    && ad.text == Gossip.Framed(AdvertisementOf(ad.local, ad.from, par.network))
  }

  ghost predicate RequestSources(s: Net, r: Request) {
    r.ids != [] && forall id | id in r.ids :: ValidMessageId(id) && id in s.published && s.published[id].publisher != r.from
  }

  ghost predicate ResponseSources(s: Net, r: Response) {
    forall e | e in Codec.Unmarshalled(r.blobs) :: Attributed(s, e) && e.sender != r.to
  }

  ghost predicate PublishedSources(s: Net) {
    forall id | id in s.published :: ValidMessageId(id) && Traceable(Gossip.ArrivedData(s.published[id].data))
  }

  ghost predicate SourceInv(par: Params, s: Net) {
    && PublishedSources(s) && PacketsInv(par, s)
    && s.nodes.Keys == par.members
    && (forall p | p in s.nodes :: SourceOk(s, p, s.nodes[p]))
    && (forall ad | ad in s.ads :: AdSources(par, s, ad))
    && (forall r | r in s.requests :: RequestSources(s, r))
    && (forall r | r in s.responses :: ResponseSources(s, r))
  }

  lemma SourcesStay(par: Params, s: Net, t: Net)
    requires Extends(s, t)
    ensures forall p, node | SourceOk(s, p, node) :: SourceOk(t, p, node)
    ensures forall ad | AdSources(par, s, ad) :: AdSources(par, t, ad)
    ensures forall r | RequestSources(s, r) :: RequestSources(t, r)
    ensures forall r | ResponseSources(s, r) :: ResponseSources(t, r)
  {
  }

  lemma PublishKeepsSources(par: Params, s: Net, p: PeerId, id: string, timestamp: u64, data: seq<string>)
    requires ValidParams(par) && SourceInv(par, s)
    requires p in s.nodes && id !in s.published && ValidMessageId(id) && Traceable(Gossip.ArrivedData(data))
    ensures SourceInv(par, DoPublish(par, s, p, id, timestamp, data))
  {
    var t := DoPublish(par, s, p, id, timestamp, data);
    PublishPackets(par, s, p, id, timestamp, data);
    assert SourceOk(s, p, s.nodes[p]);
    PublishShape(par, s, t, p, id);
  }

  lemma PublishShape(par: Params, s: Net, t: Net, p: PeerId, id: string)
    requires SourceInv(par, s) && PacketsInv(par, t) && p in s.nodes
    requires t.published.Keys == s.published.Keys + {id} && Extends(s, t)
    requires ValidMessageId(id) && Traceable(Gossip.ArrivedData(t.published[id].data))
    requires t.nodes == s.nodes[p := Sending(s.nodes[p])]
    requires t.ads == s.ads && t.requests == s.requests && t.responses == s.responses
    ensures SourceInv(par, t)
  {
    SourcesStay(par, s, t);
  }

  /** A step that only changes one buffer. */
  lemma OneBuffer(par: Params, s: Net, t: Net, p: PeerId)
    requires SourceInv(par, s) && p in s.nodes && t.nodes.Keys == s.nodes.Keys
    requires SourceOk(s, p, t.nodes[p]) && t.published == s.published
    requires forall q | q in s.nodes && q != p :: t.nodes[q] == s.nodes[q]
    requires t.packets <= s.packets && t.ads <= s.ads && t.requests <= s.requests && t.responses <= s.responses
    ensures SourceInv(par, t)
  {
    SourcesStay(par, s, t);
  }

  lemma ReceiveKeepsSources(par: Params, s: Net, k: Packet, now: u64)
    requires ValidParams(par) && SourceInv(par, s) && k in s.packets && k.to in s.nodes
    ensures SourceInv(par, DoReceive(par, s, k, now))
  {
    var m, queue := s.published[k.id], s.nodes[k.to].queue;
    Gossip.ReplicatedArrives(m.timestamp, m.clock, par.network, m.data);
    var e := Entry(Gossip.ArrivedData(m.data), m.clock, m.timestamp, now, k.id, k.source, None);
    assert SourceOk(s, k.to, s.nodes[k.to]);
    EvictedMeaning(queue, par.config.Capacity(), par.config.Expiry(), now);
    InsertCorrect(Evicted(queue, par.config.Capacity(), par.config.Expiry(), now), e);
    OneBuffer(par, s, DoReceive(par, s, k, now), k.to);
  }

  lemma ConsumeKeepsSources(par: Params, s: Net, p: PeerId)
    requires ValidParams(par) && SourceInv(par, s) && p in s.nodes && s.nodes[p].queue != []
    ensures SourceInv(par, DoConsume(s, p))
  {
    assert SourceOk(s, p, s.nodes[p]);
    SortedTail(s.nodes[p].queue);
    OneBuffer(par, s, DoConsume(s, p), p);
  }

  lemma AdvertiseKeepsSources(par: Params, s: Net, p: PeerId, now: u64)
    requires ValidParams(par) && SourceInv(par, s) && p in s.nodes
    ensures SourceInv(par, DoAdvertise(par, s, p, now))
  {
    var t := DoAdvertise(par, s, p, now);
    SourcesStay(par, s, t);
    AgedMeaning(s.nodes[p].queue, par.config.AgingPeriod(), now);
    assert SourceOk(s, p, s.nodes[p]);
  }

  /** What a node asks for was published by others. */
  lemma WantedSources(par: Params, s: Net, ad: Ad, id: string)
    requires AdSources(par, s, ad) && ad.to in s.nodes && id in Wanted(par, s, ad)
    ensures ValidMessageId(id) && id in s.published && s.published[id].publisher != ad.to
  {
    var m := AdvertisementOf(ad.local, ad.from, par.network);
    MissingMeaning(ad.to, s.nodes[ad.to].queue, m.minClock, m.maxClock, m.ids, id);
    AdvertisedIds(ad.local, ad.from, par.network);
    RemoteIdsMeaning(ad.to, m.ids, id);
    RemoteIdsOfAdvertisement(ad.to, ad.local, id);
    var e :| e in ad.local && e.messageId == id && !Contains(AdvertisedId(e), ad.to);
    AdvertisedIdParts(e);
  }

  lemma AdDecodes(par: Params, s: Net, ad: Ad)
    requires ValidParams(par) && AdSources(par, s, ad) && ad.to in s.nodes
    ensures var t := s.(ads := s.ads - {ad});
      || DoCompare(par, s, ad) == t.(synced := s.synced + {Pair(ad.from, ad.to)})
      || (Wanted(par, s, ad) != []
          && DoCompare(par, s, ad) == t.(requests := s.requests + {Request(ad.from, ad.to, Wanted(par, s, ad))}))
  {
    AdvertisementArrives(ad.local, ad.from, par.network);
    RequestOf(par, s, ad);
    assert ParsePeer(ad.from) == Some(ad.from);
  }

  lemma CompareKeepsSources(par: Params, s: Net, ad: Ad)
    requires ValidParams(par) && SourceInv(par, s) && ad in s.ads && ad.to in s.nodes
    ensures SourceInv(par, DoCompare(par, s, ad))
  {
    AdDecodes(par, s, ad);
    forall id | id in Wanted(par, s, ad)
      ensures ValidMessageId(id) && id in s.published && s.published[id].publisher != ad.to
    {
      WantedSources(par, s, ad, id);
    }
    SourcesStay(par, s, DoCompare(par, s, ad));
  }

  lemma EntryTextLast(e: Entry)
    ensures var s := Codec.EntryText(e); s != "" && IsBase58(s[|s| - 1])
  {
    Codec.EntryTextFlat(e);
    var s := Codec.EntryText(e);
    assert s[|s| - 1] == e.sender[|e.sender| - 1];
  }

  lemma SameEnd(s: string, l: string)
    requires l != "" && |l| <= |s| && s[|s| - |l|..] == l
    ensures l[|l| - 1] == s[|s| - 1]
  {
  }

  /** An entry text ends in the name of a peer, which cannot be part of a delimiter. */
  lemma EntryTextEnds(e: Entry)
    ensures Closed(LastPart(Codec.EntryText(e), Codec.ENTRY_DELIMITER), Codec.ENTRY_DELIMITER)
  {
    var s := Codec.EntryText(e);
    var l := LastPart(s, Codec.ENTRY_DELIMITER);
    EntryTextLast(e);
    LastPartEnds(s, Codec.ENTRY_DELIMITER);
    SameEnd(s, l);
    Codec.ForeignEndIsClosed(l, Codec.ENTRY_DELIMITER);
  }

  /** Whatever is read from a response is read from the text of one of its entries. */
  lemma {:induction false} ServedReads(es: seq<Entry>, x: Entry) returns (e: Entry)
    requires forall e | e in es :: ValidMessageId(e.messageId)
    requires x in Codec.ParsedBlob(Codec.Marshalled(es))
    ensures e in es && x in Codec.ParsedBlob(Codec.EntryText(e))
  {
    if es == [] {
      Codec.NothingFromEmpty();
      e := x;
    } else if |es| == 1 {
      assert Codec.Marshalled(es) == Codec.EntryText(es[0]);
      e := es[0];
    } else {
      var rest := Codec.Marshalled(es[1..]);
      var d := Codec.ENTRY_DELIMITER;
      EntryTextEnds(es[0]);
      SplitApart(Codec.EntryText(es[0]), rest, d);
      assert Codec.Marshalled(es) == Codec.EntryText(es[0]) + d + rest;
      FlatMapAppend(Codec.ParsedEntry, Split(Codec.EntryText(es[0]), d), Split(rest, d));
      if x in Codec.ParsedBlob(Codec.EntryText(es[0])) {
        e := es[0];
      } else {
        e := ServedReads(es[1..], x);
      }
    }
  }

  lemma ServeSources(par: Params, s: Net, r: Request)
    requires ValidParams(par) && SourceInv(par, s) && r in s.requests && r.to in s.nodes
    ensures r.ids != []
    ensures ResponseSources(s, Response(r.from, r.to, [Codec.Marshalled(Selected(s.nodes[r.to].queue, r.ids))]))
  {
    assert RequestSources(s, r) && SourceOk(s, r.to, s.nodes[r.to]);
    var queue := s.nodes[r.to].queue;
    var es := Selected(queue, r.ids);
    assert r.ids[0] in r.ids;
    FilterIn((e: Entry) => e.messageId in r.ids, queue);
    var blob := Codec.Marshalled(es);
    Codec.OneBlob(blob);
    Codec.UnmarshalledClean([blob]);
    forall x | x in Codec.Unmarshalled([blob]) ensures Attributed(s, x) && x.sender != r.from {
      var e := ServedReads(es, x);
      AttributableReads(e, x);
      CleanIsAttributable(x);
    }
  }

  lemma ServeKeepsSources(par: Params, s: Net, r: Request)
    requires ValidParams(par) && SourceInv(par, s) && r in s.requests && r.to in s.nodes
    ensures r.ids != [] && SourceInv(par, DoServe(s, r))
  {
    ServeSources(par, s, r);
    SourcesStay(par, s, DoServe(s, r));
  }

  lemma AbsorbKeepsSources(par: Params, s: Net, r: Response)
    requires ValidParams(par) && SourceInv(par, s) && r in s.responses && r.to in s.nodes
    ensures SourceInv(par, DoAbsorb(s, r))
  {
    assert ResponseSources(s, r) && SourceOk(s, r.to, s.nodes[r.to]);
    InsertAllCorrect(s.nodes[r.to].queue, Codec.Unmarshalled(r.blobs));
    OneBuffer(par, s, DoAbsorb(s, r), r.to);
  }

  lemma StepKeepsSources(par: Params, s: Net, a: Action)
    requires ValidParams(par) && SourceInv(par, s)
    requires a.Publish? ==> Traceable(Gossip.ArrivedData(a.data))
    ensures SourceInv(par, Step(par, s, a))
  {
    if Enabled(par, s, a) {
      match a
      case Publish(p, id, timestamp, data) => PublishKeepsSources(par, s, p, id, timestamp, data);
      case Receive(k, now) => ReceiveKeepsSources(par, s, k, now);
      case Consume(p) => ConsumeKeepsSources(par, s, p);
      case Advertise(p, now) => AdvertiseKeepsSources(par, s, p, now);
      case Compare(ad) => CompareKeepsSources(par, s, ad);
      case Serve(r) => ServeKeepsSources(par, s, r);
      case Absorb(r) => AbsorbKeepsSources(par, s, r);
    }
  }

  /** All published data is attributable once it has arrived. */
  ghost predicate TraceableData(actions: seq<Action>) {
    forall a | a in actions && a.Publish? :: Traceable(Gossip.ArrivedData(a.data))
  }

  lemma {:induction false} RunKeepsSources(par: Params, actions: seq<Action>)
    requires ValidParams(par) && TraceableData(actions)
    ensures SourceInv(par, Run(par, actions))
  {
    if actions != [] {
      assert forall a | a in actions[..|actions| - 1] :: a in actions;
      assert actions[|actions| - 1] in actions;
      RunKeepsSources(par, actions[..|actions| - 1]);
      StepKeepsSources(par, Run(par, actions[..|actions| - 1]), actions[|actions| - 1]);
    }
  }

  /** No node ever buffers or consumes a message that it published itself, and every entry
      names a message and its publisher, in every run whose data is attributable. */
  lemma NoSelfEcho(par: Params, actions: seq<Action>, p: PeerId, e: Entry)
    requires ValidParams(par) && TraceableData(actions)
    requires var s := Run(par, actions); p in s.nodes && (e in s.nodes[p].queue || e in s.nodes[p].consumed)
    ensures var s := Run(par, actions);
      e.sender != p && e.messageId in s.published && s.published[e.messageId].publisher == e.sender
  {
    RunKeepsSources(par, actions);
    assert SourceOk(Run(par, actions), p, Run(par, actions).nodes[p]);
  }

  /** Data that survives all codecs is attributable. */
  lemma SafeDataIsTraceable(par: Params, actions: seq<Action>)
    requires SafeData(par, actions)
    ensures TraceableData(actions)
  {
    forall a | a in actions && a.Publish? ensures Traceable(Gossip.ArrivedData(a.data)) {
      assert WireSafe(par.network, a.id, a.data);
      var e := Entry(a.data, 0, 0, 0, a.id, SOMEONE, None);
      CleanIsAttributable(e);
      if a.data != [] {
        SeparableCons(par.network, a.data, Gossip.SEPARATOR);
      }
      Gossip.DataUnchanged(a.data);
    }
  }

  // ---- A forged entry ----------------------------------------------------------------

  function ForgedFields(q: PeerId): seq<string> {
    ["a", "1", "0", "0", "x", q]
  }

  /** Data in which a reader finds a message `x` of `q`. */
  function Forgery(q: PeerId): string {
    Join(ForgedFields(q), Codec.FIELD_DELIMITER)
  }

  /** What a receiver buffers of it. */
  function Carrier(p: PeerId, q: PeerId): Entry {
    Entry([Forgery(q)], 1, 0, 0, "m", p, None)
  }

  lemma ForgedFieldsArePlain(q: PeerId)
    ensures forall f | f in ForgedFields(q) :: '_' !in f && '@' !in f && '~' !in f
  {
    assert forall c | c in q :: IsBase58(c);
  }

  lemma {:induction false} PlainJoin(parts: seq<string>)
    requires forall p | p in parts :: '~' !in p
    ensures '~' !in Join(parts, Codec.FIELD_DELIMITER)
  {
    if |parts| > 1 {
      PlainJoin(parts[1..]);
    }
  }

  /** The data crosses the gossip frame unchanged. */
  lemma ForgeryArrives(q: PeerId)
    ensures Gossip.ArrivedData([Forgery(q)]) == [Forgery(q)]
  {
    ForgedFieldsArePlain(q);
    PlainJoin(ForgedFields(q));
    PlainIsClosed(Forgery(q), Gossip.SEPARATOR);
    SplitOfOne(Forgery(q), Gossip.SEPARATOR);
    assert Join([Forgery(q)], Gossip.SEPARATOR) == Forgery(q);
  }

  lemma ForgeryFields(q: PeerId)
    ensures Split(Forgery(q), Codec.FIELD_DELIMITER) == ForgedFields(q)
    ensures FirstField(LastPart(Forgery(q), Codec.FIELD_DELIMITER)) == q
  {
    ForgedFieldsArePlain(q);
    PlainSplit(ForgedFields(q));
    PlainIsClosed(q, Codec.FIELD_DELIMITER);
  }

  lemma CarrierText(p: PeerId, q: PeerId)
    ensures IsHeader(HeaderOf(Carrier(p, q)))
    ensures Codec.EntryText(Carrier(p, q)) == TextOf(Forgery(q), HeaderOf(Carrier(p, q)))
  {
    EntryTextOf(Carrier(p, q));
    assert Join([Forgery(q)], Codec.DATA_DELIMITER) == Forgery(q);
  }

  /** The first six fields of such a text are those of the forged message. */
  lemma ForgedText(q: PeerId, header: seq<string>)
    requires IsHeader(header)
    ensures var fields := Split(TextOf(Forgery(q), header), Codec.FIELD_DELIMITER);
      |fields| >= 6 && fields[..6] == ForgedFields(q)
  {
    ForgeryFields(q);
    AllFields(Forgery(q), header);
    assert ForgedFields(q) == ForgedFields(q)[..5] + [q];
  }

  lemma ForgeryIsOnePiece(q: PeerId)
    ensures Split(Forgery(q), Codec.ENTRY_DELIMITER) == [Forgery(q)]
  {
    ForgedFieldsArePlain(q);
    forall f | f in ForgedFields(q) ensures !Contains(f, Codec.ENTRY_DELIMITER) {
      PlainIsClosed(f, Codec.ENTRY_DELIMITER);
    }
    Codec.EntryDelimiterInJoin(ForgedFields(q));
    SplitOfOne(Forgery(q), Codec.ENTRY_DELIMITER);
  }

  /** What a reader finds in the text of its carrier. */
  lemma ForgeryIsRead(p: PeerId, q: PeerId, x: Entry)
    ensures x in Codec.ParsedBlob(Codec.EntryText(Carrier(p, q))) <==>
      x == Entry(["a"], 1, 0, 0, "x", q, None)
  {
    CarrierText(p, q);
    ForgedText(q, HeaderOf(Carrier(p, q)));
    ForgeryIsOnePiece(q);
    ReadFrom(Forgery(q), HeaderOf(Carrier(p, q)), x);
    ForgeryParses(TextOf(Forgery(q), HeaderOf(Carrier(p, q))), q);
  }

  lemma ForgeryParses(text: string, q: PeerId)
    requires var fields := Split(text, Codec.FIELD_DELIMITER); |fields| >= 6 && fields[..6] == ForgedFields(q)
    ensures Codec.ParseEntry(text) == Some(Entry(["a"], 1, 0, 0, "x", q, None))
  {
    var fields := Split(text, Codec.FIELD_DELIMITER);
    assert fields[0] == fields[..6][0] && fields[1] == fields[..6][1] && fields[2] == fields[..6][2];
    assert fields[3] == fields[..6][3] && fields[4] == fields[..6][4] && fields[5] == fields[..6][5];
    PlainIsClosed("a", Codec.DATA_DELIMITER);
    SplitOfOne("a", Codec.DATA_DELIMITER);
    Decimal.ParseOfPrint(1, MAX);
    Decimal.ParseOfPrint(0, MAX);
    assert Decimal.Print(1) == "1" && Decimal.Print(0) == "0";
  }

  /** `r` holds the carrier, and `q` holds nothing. */
  ghost predicate CarrierOnly(s: Net, p: PeerId, q: PeerId, r: PeerId) {
    && r in s.nodes && q in s.nodes && s.nodes[r].queue == [Carrier(p, q)]
    && s.nodes[q].queue == [] && s.nodes[q].lastClock == 0
    && s.published.Keys == {"m"}
  }

  /** The receipt of the forged data makes the carrier. */
  lemma CarrierBuffered(par: Params, s: Net, p: PeerId, q: PeerId, r: PeerId, k: Packet)
    requires ValidParams(par) && r in s.nodes && q in s.nodes && q != r && s.published.Keys == {"m"}
    requires s.nodes[r].queue == [] && s.nodes[q].queue == [] && s.nodes[q].lastClock == 0
    requires k == Packet(r, "m", p, PublicationFrame(par, Publication(p, 1, 0, [Forgery(q)])))
    ensures CarrierOnly(DoReceive(par, s, k, 0), p, q, r)
  {
    Gossip.ReplicatedArrives(0, 1, par.network, [Forgery(q)]);
    ForgeryArrives(q);
    var empty: seq<Entry> := [];
    EvictedMeaning(empty, par.config.Capacity(), par.config.Expiry(), 0);
    assert Insert(empty, Carrier(p, q)) == [Carrier(p, q)];
  }

  lemma CarrierReceived(par: Params, p: PeerId, q: PeerId, r: PeerId) returns (actions: seq<Action>)
    requires ValidParams(par) && {p, q, r} <= par.members && p != q && q != r && p != r
    ensures CarrierOnly(Run(par, actions), p, q, r)
  {
    var k := Packet(r, "m", p, PublicationFrame(par, Publication(p, 1, 0, [Forgery(q)])));
    var a0, a1 := Publish(p, "m", 0, [Forgery(q)]), Receive(k, 0);
    actions := [a0, a1];
    TwoSteps(par, Init(par), a0, a1);
    PublishedThenReceived(par, Init(par), p, k, [Forgery(q)]);
    CarrierBuffered(par, DoPublish(par, Init(par), p, "m", 0, [Forgery(q)]), p, q, r, k);
  }

  /** `q` has been sent the advertisement of `r` and asks for the carrier. */
  lemma CarrierRequested(par: Params, s: Net, p: PeerId, q: PeerId, r: PeerId) returns (actions: seq<Action>)
    requires ValidParams(par) && CarrierOnly(s, p, q, r) && {q, r} <= par.members && q != r
    requires par.config.AgingPeriod() < MAX && !Contains(AdvertisedId(Carrier(p, q)), q)
    ensures var t := Steps(par, s, actions); CarrierOnly(t, p, q, r) && Request(r, q, ["m"]) in t.requests
  {
    var local := [Carrier(p, q)];
    var ad := Ad(q, r, Gossip.Framed(AdvertisementOf(local, r, par.network)), local);
    CarrierAdvertised(par, s, p, q, r, ad);
    var s1 := DoAdvertise(par, s, r, MAX);
    CarrierWanted(par, s1, p, q, ad);
    CarrierCompared(par, s1, p, q, ad);
    actions := [Advertise(r, MAX), Compare(ad)];
    TwoSteps(par, s, Advertise(r, MAX), Compare(ad));
    AdvertiseStep(par, s, r, MAX);
  }

  lemma AdvertiseStep(par: Params, s: Net, r: PeerId, now: u64)
    requires ValidParams(par) && r in s.nodes
    ensures Step(par, s, Advertise(r, now)) == DoAdvertise(par, s, r, now)
  {
  }

  lemma CarrierAdvertised(par: Params, s: Net, p: PeerId, q: PeerId, r: PeerId, ad: Ad)
    requires CarrierOnly(s, p, q, r) && {q, r} <= par.members && q != r && par.config.AgingPeriod() < MAX
    requires ad == Ad(q, r, Gossip.Framed(AdvertisementOf([Carrier(p, q)], r, par.network)), [Carrier(p, q)])
    ensures var t := DoAdvertise(par, s, r, MAX);
      ad in t.ads && t.nodes == s.nodes && t.published == s.published
  {
    CarrierAged(par, p, q);
  }

  lemma CarrierAged(par: Params, p: PeerId, q: PeerId)
    requires par.config.AgingPeriod() < MAX
    ensures Aged([Carrier(p, q)], par.config.AgingPeriod(), MAX) == [Carrier(p, q)]
  {
    FilterIn((e: Entry) => IsAged(e, par.config.AgingPeriod(), MAX), [Carrier(p, q)]);
  }

  lemma CarrierCompared(par: Params, s: Net, p: PeerId, q: PeerId, ad: Ad)
    requires ValidParams(par) && ad.to == q && q in s.nodes && ad in s.ads && ad.local == [Carrier(p, q)]
    requires ad.text == Gossip.Framed(AdvertisementOf(ad.local, ad.from, par.network))
    requires Wanted(par, s, ad) == ["m"] && !Overtaken(s, ad)
    ensures Step(par, s, Compare(ad)) == s.(ads := s.ads - {ad}, requests := s.requests + {Request(ad.from, q, ["m"])})
  {
    var t := DoCompare(par, s, ad);
    assert t == s.(ads := s.ads - {ad}, requests := s.requests + {Request(ad.from, q, ["m"])}) by {
      AdvertisementArrives(ad.local, ad.from, par.network);
      RequestOf(par, s, ad);
      assert ParsePeer(ad.from) == Some(ad.from);
    }
    assert Enabled(par, s, Compare(ad));
    assert Step(par, s, Compare(ad)) == t;
  }

  lemma CarrierWanted(par: Params, s: Net, p: PeerId, q: PeerId, ad: Ad)
    requires q in s.nodes && s.nodes[q].queue == [] && s.nodes[q].lastClock == 0
    requires ad.to == q && ad.local == [Carrier(p, q)] && !Contains(AdvertisedId(Carrier(p, q)), q)
    ensures Wanted(par, s, ad) == ["m"] && !Overtaken(s, ad)
  {
    var e := Carrier(p, q);
    AdvertisedIdParts(e);
    var m := AdvertisementOf(ad.local, ad.from, par.network);
    assert Map(AdvertisedId, [e]) == [AdvertisedId(e)];
    assert m.ids == [AdvertisedId(e)];
    FilterIn((id: string) => !Contains(id, q), m.ids);
    assert Map(MessageIdOf, m.ids) == ["m"];
    assert ["m"][1..] == [] && TextSet(["m"]) == ["m"];
    assert RemoteIds(q, m.ids) == ["m"];
    assert IdsInside([], m.minClock, m.maxClock) == [];
  }

  lemma CarrierServed(s: Net, p: PeerId, q: PeerId, r: PeerId)
    requires CarrierOnly(s, p, q, r)
    ensures var t := DoServe(s, Request(r, q, ["m"]));
      && Response(q, r, [Codec.EntryText(Carrier(p, q))]) in t.responses
      && t.published == s.published && t.nodes == s.nodes
  {
    var e := Carrier(p, q);
    FilterIn((x: Entry) => x.messageId in ["m"], [e]);
    assert Selected([e], ["m"]) == [e];
    assert Map(Codec.EntryText, [e]) == [Codec.EntryText(e)];
    assert Codec.Marshalled([e]) == Codec.EntryText(e);
  }

  lemma CarrierAbsorbed(s: Net, p: PeerId, q: PeerId, r: PeerId)
    requires q in s.nodes && s.nodes[q].queue == []
    ensures var t := DoAbsorb(s, Response(q, r, [Codec.EntryText(Carrier(p, q))]));
      t.published == s.published && q in t.nodes && exists e :: e in t.nodes[q].queue && e.sender == q && e.messageId == "x"
  {
    Codec.OneBlob(Codec.EntryText(Carrier(p, q)));
    ForgedInserted(p, q, Codec.Unmarshalled([Codec.EntryText(Carrier(p, q))]));
  }

  /** Serving the request hands `q` a message of its own that nobody published. */
  lemma CarrierPulled(par: Params, s: Net, p: PeerId, q: PeerId, r: PeerId) returns (actions: seq<Action>)
    requires ValidParams(par) && CarrierOnly(s, p, q, r) && q != r && Request(r, q, ["m"]) in s.requests
    ensures var t := Steps(par, s, actions);
      t.published == s.published && q in t.nodes && exists e :: e in t.nodes[q].queue && e.sender == q && e.messageId == "x"
  {
    var request, response := Request(r, q, ["m"]), Response(q, r, [Codec.EntryText(Carrier(p, q))]);
    CarrierServed(s, p, q, r);
    CarrierAbsorbed(DoServe(s, request), p, q, r);
    actions := [Serve(request), Absorb(response)];
    TwoSteps(par, s, Serve(request), Absorb(response));
  }

  lemma ForgedInserted(p: PeerId, q: PeerId, es: seq<Entry>)
    requires es == Codec.ParsedBlob(Codec.EntryText(Carrier(p, q)))
    ensures exists e :: e in InsertAll([], es) && e.sender == q && e.messageId == "x"
  {
    var x := Entry(["a"], 1, 0, 0, "x", q, None);
    ForgeryIsRead(p, q, x);
    InsertAllCorrect([], es);
    var y :| y in InsertAll([], es) && SameKey(y, x);
    ForgeryIsRead(p, q, y);
  }

  /** With data that is not attributable, a node can be made to hold a message of its own that
      nobody ever published. */
  lemma ForgedEcho(par: Params, p: PeerId, q: PeerId, r: PeerId) returns (actions: seq<Action>, e: Entry)
    requires ValidParams(par) && {p, q, r} <= par.members && p != q && q != r && p != r
    requires par.config.AgingPeriod() < MAX && !Contains(AdvertisedId(Carrier(p, q)), q)
    ensures var s := Run(par, actions);
      q in s.nodes && e in s.nodes[q].queue && e.sender == q && e.messageId !in s.published
  {
    var first := CarrierReceived(par, p, q, r);
    var s1 := Run(par, first);
    var second := CarrierRequested(par, s1, p, q, r);
    var third := CarrierPulled(par, Steps(par, s1, second), p, q, r);
    actions := first + second + third;
    StepsMore(par, Init(par), first, second);
    StepsMore(par, Init(par), first + second, third);
    e :| e in Run(par, actions).nodes[q].queue && e.sender == q && e.messageId == "x";
  }
}
