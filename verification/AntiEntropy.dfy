/** What one exchange of the anti-entropy protocol achieves between two buffers. */
module AntiEntropy {
  import opened Wrappers
  import opened U64
  import opened Seqs
  import opened Framing
  import opened Entries
  import opened OrderedBuffer
  import opened ReplicaBuffer
  import Codec
  import Decimal
  import Gossip

  predicate IsAlphanumeric(c: char) {
    '0' <= c <= '9' || 'A' <= c <= 'Z' || 'a' <= c <= 'z'
  }

  /** Gossipsub ids: the printed source followed by a sequence number, which does not make a
      peer id. */
  predicate ValidMessageId(id: string) {
    id != "" && !IsPeerText(id) && forall c | c in id :: IsAlphanumeric(c)
  }

  lemma AdvertisedIdParts(e: Entry)
    requires ValidMessageId(e.messageId)
    ensures MessageIdOf(AdvertisedId(e)) == e.messageId
    ensures Contains(AdvertisedId(e), e.sender)
    ensures '~' !in AdvertisedId(e)
  {
    var d := Codec.ENTRY_DELIMITER;
    PlainIsClosed(e.messageId, d);
    SplitFront(e.messageId, e.sender, d);
    assert At(e.sender, e.sender, 0);
    ContainsInContext(e.messageId + d, e.sender, "", e.sender);
    assert e.messageId + d + e.sender + "" == AdvertisedId(e);
  }

  /** An advertisement survives framing. */
  lemma AdvertisementArrives(local: seq<Entry>, peer: PeerId, network: string)
    requires forall e | e in local :: ValidMessageId(e.messageId)
    requires Closed(network, Gossip.SEPARATOR)
    ensures var m := AdvertisementOf(local, peer, network); Gossip.Decode(Gossip.Framed(m)) == Gossip.Protocol(m)
  {
    var m := AdvertisementOf(local, peer, network);
    var parts := Gossip.Payload(m);
    forall i | 0 <= i < |parts| && i != 1 ensures '~' !in parts[i] {
      if i >= 4 {
        AdvertisedIdParts(local[i - 4]);
        assert parts[i] == AdvertisedId(local[i - 4]);
      } else {
        assert i == 0 ==> IsPeerText(parts[i]);
        assert i >= 2 ==> Decimal.AllDigits(parts[i]);
      }
    }
    forall i | 0 <= i < |parts| ensures Closed(parts[i], Gossip.SEPARATOR) && !Contains(parts[i], Gossip.SEPARATOR) {
      if i == 1 {
        ClosedContainsNone(network, Gossip.SEPARATOR);
      } else {
        PlainIsClosed(parts[i], Gossip.SEPARATOR);
      }
    }
    Gossip.SeparableDecodes(m);
  }

  /** A message id determines the clock across the two buffers. */
  ghost predicate IdsDetermineClocks(local: seq<Entry>, queue: seq<Entry>) {
    forall x, y | x in local && y in queue && x.messageId == y.messageId :: x.lamportClock == y.lamportClock
  }

  ghost predicate HoldsId(queue: seq<Entry>, id: string) {
    exists e :: e in queue && e.messageId == id
  }

  lemma SortedClocks(local: seq<Entry>, x: Entry)
    requires Sorted(local) && x in local
    ensures local[0].lamportClock <= x.lamportClock <= local[|local| - 1].lamportClock
  {
  }

  /** The advertised ids a node takes an interest in are those of the advertised entries. */
  lemma RemoteIdsOfAdvertisement(self: PeerId, local: seq<Entry>, id: string)
    requires forall e | e in local :: ValidMessageId(e.messageId)
    ensures id in RemoteIds(self, Map(AdvertisedId, local)) <==>
      exists e :: e in local && e.messageId == id && !Contains(AdvertisedId(e), self)
  {
    var ads := Map(AdvertisedId, local);
    RemoteIdsMeaning(self, ads, id);
    if a :| a in ads && !Contains(a, self) && MessageIdOf(a) == id {
      MapIn(AdvertisedId, local, a);
      var e :| e in local && AdvertisedId(e) == a;
      AdvertisedIdParts(e);
    }
    if e :| e in local && e.messageId == id && !Contains(AdvertisedId(e), self) {
      AdvertisedIdParts(e);
      MapIn(AdvertisedId, local, AdvertisedId(e));
    }
  }

  lemma AdvertisedIds(local: seq<Entry>, peer: PeerId, network: string)
    ensures AdvertisementOf(local, peer, network).ids == Map(AdvertisedId, local)
  {
  }

  lemma AdvertisedInterval(local: seq<Entry>, peer: PeerId, network: string)
    requires Sorted(local)
    ensures var m := AdvertisementOf(local, peer, network);
      && (forall e | e in local :: m.minClock <= e.lamportClock <= m.maxClock)
      && (local == [] ==> m.minClock == m.maxClock == 0)
      && (local != [] ==> exists e :: e in local && e.lamportClock == m.minClock)
      && (local != [] ==> exists e :: e in local && e.lamportClock == m.maxClock)
  {
    forall e | e in local ensures local[0].lamportClock <= e.lamportClock <= local[|local| - 1].lamportClock {
      SortedClocks(local, e);
    }
    if local != [] {
      assert local[0] in local && local[|local| - 1] in local;
    }
  }

  lemma AgedMeaning(queue: seq<Entry>, aging: u64, now: u64)
    ensures forall e :: e in Aged(queue, aging, now) <==> e in queue && IsAged(e, aging, now)
    ensures Sorted(queue) ==> Sorted(Aged(queue, aging, now))
  {
    var isAged := (e: Entry) => IsAged(e, aging, now);
    FilterIn(isAged, queue);
    if Sorted(queue) {
      FilterSorted(isAged, queue);
    }
  }

  /** An advertisement names exactly the aged entries of the buffer, each with its publisher,
      and its interval is the smallest one that holds their clocks. */
  lemma AdvertisementMeaning(queue: seq<Entry>, aging: u64, now: u64, peer: PeerId, network: string)
    requires Sorted(queue)
    ensures var m := AdvertisementOf(Aged(queue, aging, now), peer, network);
      && (forall id :: id in m.ids <==> exists e :: e in queue && IsAged(e, aging, now) && AdvertisedId(e) == id)
      && (forall e | e in queue && IsAged(e, aging, now) :: m.minClock <= e.lamportClock <= m.maxClock)
      && (m.ids == [] ==> m.minClock == m.maxClock == 0)
      && (m.ids != [] ==> exists e :: e in queue && IsAged(e, aging, now) && e.lamportClock == m.minClock)
      && (m.ids != [] ==> exists e :: e in queue && IsAged(e, aging, now) && e.lamportClock == m.maxClock)
  {
    var local := Aged(queue, aging, now);
    AgedMeaning(queue, aging, now);
    AdvertisedIds(local, peer, network);
    AdvertisedInterval(local, peer, network);
    forall id ensures id in Map(AdvertisedId, local) <==> exists e :: e in local && AdvertisedId(e) == id {
      MapIn(AdvertisedId, local, id);
    }
  }

  /** Inside the advertised interval lies every local entry with an advertised id. */
  lemma IntervalHoldsId(queue: seq<Entry>, local: seq<Entry>, peer: PeerId, network: string, x: Entry)
    requires Sorted(local) && IdsDetermineClocks(local, queue) && x in local
    ensures var m := AdvertisementOf(local, peer, network);
      x.messageId in IdsInside(queue, m.minClock, m.maxClock) <==> HoldsId(queue, x.messageId)
  {
    var m := AdvertisementOf(local, peer, network);
    IdsInsideMeaning(queue, m.minClock, m.maxClock, x.messageId);
    SortedClocks(local, x);
  }

  /** A receiver asks for exactly the advertised messages that it does not hold anywhere in
      its buffer and that do not carry its own name. */
  lemma MissingExactly(self: PeerId, queue: seq<Entry>, local: seq<Entry>, peer: PeerId, network: string, id: string)
    requires Sorted(local) && IdsDetermineClocks(local, queue)
    requires forall e | e in local :: ValidMessageId(e.messageId)
    ensures var m := AdvertisementOf(local, peer, network);
      id in Missing(self, queue, m.minClock, m.maxClock, m.ids) <==>
        && (exists e :: e in local && e.messageId == id && !Contains(AdvertisedId(e), self))
        && !HoldsId(queue, id)
  {
    var m := AdvertisementOf(local, peer, network);
    AdvertisedIds(local, peer, network);
    RemoteIdsOfAdvertisement(self, local, id);
    var inside := IdsInside(queue, m.minClock, m.maxClock);
    Seqs.FilterIn((x: string) => x !in inside, RemoteIds(self, m.ids));
    if e :| e in local && e.messageId == id && !Contains(AdvertisedId(e), self) {
      IntervalHoldsId(queue, local, peer, network, e);
    }
  }

  lemma {:induction false} FilterAgrees<T>(p: T -> bool, q: T -> bool, xs: seq<T>)
    requires forall x | x in xs :: p(x) == q(x)
    ensures Filter(p, xs) == Filter(q, xs)
  {
    if xs != [] {
      FilterAgrees(p, q, xs[1..]);
    }
  }

  /** Comparing with the entries inside the advertised clock interval loses nothing: the
      request is the one that a comparison with the whole buffer would give. */
  lemma IntervalLosesNothing(self: PeerId, queue: seq<Entry>, local: seq<Entry>, peer: PeerId, network: string)
    requires Sorted(local) && IdsDetermineClocks(local, queue)
    requires forall e | e in local :: ValidMessageId(e.messageId)
    ensures var m := AdvertisementOf(local, peer, network);
      Missing(self, queue, m.minClock, m.maxClock, m.ids) == Missing(self, queue, 0, MAX, m.ids)
  {
    var m := AdvertisementOf(local, peer, network);
    var inside, all := IdsInside(queue, m.minClock, m.maxClock), IdsInside(queue, 0, MAX);
    AdvertisedIds(local, peer, network);
    forall id | id in RemoteIds(self, m.ids) ensures id in inside <==> id in all {
      RemoteIdsOfAdvertisement(self, local, id);
      var x :| x in local && x.messageId == id;
      IntervalHoldsId(queue, local, peer, network, x);
      IdsInsideMeaning(queue, 0, MAX, id);
    }
    FilterAgrees((id: string) => id !in inside, (id: string) => id !in all, RemoteIds(self, m.ids));
  }

  /** What a node that holds clean, unconfirmed entries serves is read as what it holds. */
  lemma ServedIsHeld(held: seq<Entry>, ids: seq<string>)
    requires ids != [] && "" !in ids
    requires forall e | e in held :: Codec.Clean(e) && e.confirmations == None
    ensures forall e :: e in Codec.Unmarshalled([Codec.Marshalled(Selected(held, ids))]) <==>
      e in held && e.messageId in ids
  {
    var selected := Selected(held, ids);
    FilterIn((e: Entry) => e.messageId in ids, held);
    Codec.RoundTrip(selected);
    Codec.UnconfirmedSame(selected);
  }

  /** A pull removes and alters nothing, adds only entries the advertiser holds, and after it
      the same advertisement makes the node ask only for what the advertiser lacked. */
  lemma PullIsIdempotent(self: PeerId, queue: seq<Entry>, held: seq<Entry>, minClock: u64, maxClock: u64, advertised: seq<string>)
    requires Sorted(queue)
    requires forall e | e in held :: Codec.Clean(e) && e.confirmations == None
    requires var ids := Missing(self, queue, minClock, maxClock, advertised);
      && ids != [] && "" !in ids
      && forall e | e in held && e.messageId in ids :: minClock <= e.lamportClock <= maxClock
    ensures var ids := Missing(self, queue, minClock, maxClock, advertised);
      var after := InsertAll(queue, Codec.Unmarshalled([Codec.Marshalled(Selected(held, ids))]));
      && (forall e | e in queue :: e in after)
      && (forall e | e in after && e !in queue :: e in held)
      && (forall id | id in Missing(self, after, minClock, maxClock, advertised) :: id in ids && !HoldsId(held, id))
  {
    var ids := Missing(self, queue, minClock, maxClock, advertised);
    var served := Codec.Unmarshalled([Codec.Marshalled(Selected(held, ids))]);
    var after := InsertAll(queue, served);
    ServedIsHeld(held, ids);
    InsertAllCorrect(queue, served);
    forall e | e in served
      ensures exists x :: x in after && minClock <= x.lamportClock <= maxClock && x.messageId == e.messageId
    {
      var x :| x in after && SameKey(x, e);
    }
    forall id | id in Missing(self, after, minClock, maxClock, advertised) ensures id in ids && !HoldsId(held, id) {
      MissingMeaning(self, after, minClock, maxClock, advertised, id);
      MissingMeaning(self, queue, minClock, maxClock, advertised, id);
    }
  }
}
