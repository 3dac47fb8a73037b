/**
 The gossip messages of the replication and sharding protocols: how a message is framed
 into one text and how the event loop takes a text apart again.
 */
module Gossip {
  import opened U64
  import opened Framing
  import opened Decimal
  import opened Entries

  const SEPARATOR: string := "~~##~~"
  const REPL_GOSSIP_FLAG: string := "REPL_GOSSIP_FLAG__@@"
  const STRONG_CONSISTENCY_FLAG: string := "STRONG_CON__@@"
  const EVENTUAL_CONSISTENCY_FLAG: string := "EVENTUAL_CON_@@"
  const SHARD_GOSSIP_JOIN_FLAG: string := "SHARD_GOSSIP_JOIN_FLAG__@@"
  const SHARD_GOSSIP_EXIT_FLAG: string := "SHARD_GOSSIP_EXIT_FLAG__@@"

  datatype Message =
    | Replicated(timestamp: u64, clock: u64, network: string, data: seq<string>)
    | Confirmation(network: string, messageId: string)
    | Advertisement(advertiser: string, network: string, minClock: u64, maxClock: u64, ids: seq<string>)
    | ShardJoin(peer: PeerId, shard: string)
    | ShardExit(peer: PeerId, shard: string)

  /** The reaction to a text: a protocol message, a message for the application, nothing,
      or an index out of range in the event loop. */
  datatype Decoded = Protocol(message: Message) | Application(parts: seq<string>) | Ignored | IndexPanic

  function Flag(m: Message): string {
    match m
    case Replicated(_, _, _, _) => REPL_GOSSIP_FLAG
    case Confirmation(_, _) => STRONG_CONSISTENCY_FLAG
    case Advertisement(_, _, _, _, _) => EVENTUAL_CONSISTENCY_FLAG
    case ShardJoin(_, _) => SHARD_GOSSIP_JOIN_FLAG
    case ShardExit(_, _) => SHARD_GOSSIP_EXIT_FLAG
  }

  /** The numbers and peer ids that follow the flag. */
  function Header(m: Message): seq<string> {
    match m
    case Replicated(timestamp, clock, _, _) => [Print(timestamp), Print(clock)]
    case Confirmation(_, _) => []
    case Advertisement(_, _, _, _, _) => []
    case ShardJoin(peer, _) => [peer]
    case ShardExit(peer, _) => [peer]
  }

  /** The remaining parts, among them every name and data item. */
  function Payload(m: Message): seq<string> {
    match m
    case Replicated(_, _, network, data) => [network] + data
    case Confirmation(network, messageId) => [network, messageId]
    case Advertisement(advertiser, network, minClock, maxClock, ids) =>
      [advertiser, network, Print(minClock), Print(maxClock)] + ids
    case ShardJoin(_, shard) => [shard]
    case ShardExit(_, shard) => [shard]
  }

  function Parts(m: Message): seq<string> {
    [Flag(m)] + Header(m) + Payload(m)
  }

  function Framed(m: Message): string {
    Join(Parts(m), SEPARATOR)
  }

  function DecodeParts(parts: seq<string>): Decoded
    requires parts != []
  {
    if parts[0] == REPL_GOSSIP_FLAG then
      if |parts| < 4 then IndexPanic
      else Protocol(Replicated(ParseOrZero(parts[1]), ParseOrZero(parts[2]), parts[3], parts[4..]))
    else if parts[0] == STRONG_CONSISTENCY_FLAG then
      if |parts| < 3 then IndexPanic
      else Protocol(Confirmation(parts[1], parts[2]))
    else if parts[0] == EVENTUAL_CONSISTENCY_FLAG then
      if |parts| < 5 then IndexPanic
      else Protocol(Advertisement(parts[1], parts[2], ParseOrZero(parts[3]), ParseOrZero(parts[4]), parts[5..]))
    else if parts[0] == SHARD_GOSSIP_JOIN_FLAG || parts[0] == SHARD_GOSSIP_EXIT_FLAG then
      if |parts| < 2 then IndexPanic
      else match ParsePeer(parts[1])
        case None => Ignored
        case Some(peer) =>
          if |parts| < 3 then IndexPanic
          else Protocol(if parts[0] == SHARD_GOSSIP_JOIN_FLAG then ShardJoin(peer, parts[2]) else ShardExit(peer, parts[2]))
    else Application(parts)
  }

  function Decode(text: string): Decoded {
    DecodeParts(Split(text, SEPARATOR))
  }

  lemma FlagsArePlain(m: Message)
    ensures '~' !in Flag(m)
  {
  }

  lemma HeaderIsPlain(m: Message)
    ensures forall h | h in Header(m) :: '~' !in h
  {
  }

  lemma JoinTakesFront(p: string, parts: seq<string>, d: string)
    requires parts != []
    ensures Join([p] + parts, d) == p + d + Join(parts, d)
  {
  }

  lemma {:induction false} SplitTakesPrefix(prefix: seq<string>, parts: seq<string>, d: string)
    requires d != "" && parts != [] && forall p | p in prefix :: d[0] !in p
    ensures Split(Join(prefix + parts, d), d) == prefix + Split(Join(parts, d), d)
  {
    if prefix == [] {
      assert prefix + parts == parts;
    } else {
      var p, more := prefix[0], prefix[1..];
      var rest := Split(Join(parts, d), d);
      calc {
        Split(Join(prefix + parts, d), d);
        { assert prefix + parts == [p] + (more + parts); }
        Split(Join([p] + (more + parts), d), d);
        { JoinTakesFront(p, more + parts, d); }
        Split(p + d + Join(more + parts, d), d);
        { PlainIsClosed(p, d); SplitFront(p, Join(more + parts, d), d); }
        [p] + Split(Join(more + parts, d), d);
        { SplitTakesPrefix(more, parts, d); }
        [p] + (more + rest);
        prefix + rest;
      }
    }
  }

  lemma FlagsDiffer()
    ensures REPL_GOSSIP_FLAG[0] == 'R' && EVENTUAL_CONSISTENCY_FLAG[0] == 'E'
    ensures STRONG_CONSISTENCY_FLAG[0] == SHARD_GOSSIP_JOIN_FLAG[0] == SHARD_GOSSIP_EXIT_FLAG[0] == 'S'
    ensures STRONG_CONSISTENCY_FLAG[1] == 'T' && SHARD_GOSSIP_JOIN_FLAG[1] == SHARD_GOSSIP_EXIT_FLAG[1] == 'H'
    ensures SHARD_GOSSIP_JOIN_FLAG[13] == 'J' && SHARD_GOSSIP_EXIT_FLAG[13] == 'E'
  {
  }

  lemma ReplicatedFlagParts(rest: seq<string>)
    ensures DecodeParts([REPL_GOSSIP_FLAG] + rest) ==
      if |rest| < 3 then IndexPanic
      else Protocol(Replicated(ParseOrZero(rest[0]), ParseOrZero(rest[1]), rest[2], rest[3..]))
  {
    var parts := [REPL_GOSSIP_FLAG] + rest;
    assert |rest| >= 3 ==> parts[4..] == rest[3..];
  }

  lemma ReplicatedParts(timestamp: u64, clock: u64, network: string, data: seq<string>)
    ensures DecodeParts([REPL_GOSSIP_FLAG, Print(timestamp), Print(clock)] + ([network] + data)) ==
      Protocol(Replicated(timestamp, clock, network, data))
  {
    var rest := [Print(timestamp), Print(clock), network] + data;
    assert [REPL_GOSSIP_FLAG, Print(timestamp), Print(clock)] + ([network] + data) == [REPL_GOSSIP_FLAG] + rest;
    ReplicatedFlagParts(rest);
    ParseOfPrint(timestamp, MAX);
    ParseOfPrint(clock, MAX);
    assert rest[3..] == data;
  }

  lemma PartsDecode(m: Message)
    ensures DecodeParts(Parts(m)) == Protocol(m)
  {
    match m
    case Replicated(timestamp, clock, network, data) =>
      ReplicatedParts(timestamp, clock, network, data);
    case Confirmation(network, messageId) =>
      ConfirmationParts([network, messageId]);
      assert Parts(m) == [STRONG_CONSISTENCY_FLAG] + [network, messageId];
    case Advertisement(_, _, _, _, _) =>
      AdvertisementOwnParts(m);
    case ShardJoin(peer, shard) =>
      ShardFlagParts(peer, [shard]);
    case ShardExit(peer, shard) =>
      ShardFlagParts(peer, [shard]);
  }

  lemma AdvertisementOwnParts(m: Message)
    requires m.Advertisement?
    ensures DecodeParts(Parts(m)) == Protocol(m)
  {
    var rest := [m.advertiser, m.network, Print(m.minClock), Print(m.maxClock)] + m.ids;
    AdvertisementParts(rest);
    ParseOfPrint(m.minClock, MAX);
    ParseOfPrint(m.maxClock, MAX);
    assert rest[4..] == m.ids;
    assert Parts(m) == [EVENTUAL_CONSISTENCY_FLAG] + rest;
  }

  lemma SplitOfFramed(m: Message)
    ensures Split(Framed(m), SEPARATOR) == [Flag(m)] + Header(m) + Split(Join(Payload(m), SEPARATOR), SEPARATOR)
  {
    FlagsArePlain(m);
    HeaderIsPlain(m);
    SplitTakesPrefix([Flag(m)] + Header(m), Payload(m), SEPARATOR);
  }

  /** A frame is taken apart into the parts it was made of exactly when the names and data
      items of the message do not collide with the separator. */
  lemma FrameIsFaithful(m: Message)
    ensures Split(Framed(m), SEPARATOR) == Parts(m) <==> Separable(Payload(m), SEPARATOR)
  {
    SplitOfFramed(m);
    SplitOfJoin(Payload(m), SEPARATOR);
    var front := [Flag(m)] + Header(m);
    var rest := Split(Join(Payload(m), SEPARATOR), SEPARATOR);
    assert (front + rest)[|front|..] == rest && (front + Payload(m))[|front|..] == Payload(m);
  }

  /** A message with a separable payload is decoded as it was sent. */
  lemma SeparableDecodes(m: Message)
    requires Separable(Payload(m), SEPARATOR)
    ensures Decode(Framed(m)) == Protocol(m)
  {
    FrameIsFaithful(m);
    PartsDecode(m);
  }

  /** For replicated data the condition is exact: data that collides with the separator
      arrives changed. */
  lemma ReplicatedDecodes(timestamp: u64, clock: u64, network: string, data: seq<string>)
    ensures var m := Replicated(timestamp, clock, network, data);
      Decode(Framed(m)) == Protocol(m) <==> Separable(Payload(m), SEPARATOR)
  {
    var m := Replicated(timestamp, clock, network, data);
    if Decode(Framed(m)) == Protocol(m) {
      SplitOfFramed(m);
      FlagsDiffer();
      var parts := Split(Framed(m), SEPARATOR);
      assert parts[0] == Flag(m) && |parts| >= 4;
      assert parts == parts[..3] + [parts[3]] + parts[4..];
      assert parts[..3] == [Flag(m)] + Header(m);
      assert parts == Parts(m);
      FrameIsFaithful(m);
    } else if Separable(Payload(m), SEPARATOR) {
      SeparableDecodes(m);
    }
  }

  lemma FirstOfSplit(s: string, d: string)
    requires d != ""
    ensures Split(s, d)[0] == s <==> !Contains(s, d)
  {
    if Contains(s, d) {
      var k := Find(s, d).value;
      assert |s[..k]| < |s|;
    }
  }

  lemma ShardFlagParts(peer: PeerId, rest: seq<string>)
    requires rest != []
    ensures DecodeParts([SHARD_GOSSIP_JOIN_FLAG, peer] + rest) == Protocol(ShardJoin(peer, rest[0]))
    ensures DecodeParts([SHARD_GOSSIP_EXIT_FLAG, peer] + rest) == Protocol(ShardExit(peer, rest[0]))
  {
    FlagsDiffer();
  }

  lemma ShardPieces(m: Message, peer: PeerId, shard: string)
    requires m == ShardJoin(peer, shard) || m == ShardExit(peer, shard)
    ensures Header(m) == [peer] && Join(Payload(m), SEPARATOR) == shard
  {
  }

  lemma FlagAndPeer(flag: string, peer: string, rest: seq<string>)
    ensures [flag] + [peer] + rest == [flag, peer] + rest
  {
  }

  lemma ShardParts(m: Message, peer: PeerId, shard: string)
    requires m == ShardJoin(peer, shard) || m == ShardExit(peer, shard)
    ensures Split(Framed(m), SEPARATOR) == [Flag(m), peer] + Split(shard, SEPARATOR)
  {
    ShardPieces(m, peer, shard);
    SplitOfFramed(m);
    FlagAndPeer(Flag(m), peer, Split(shard, SEPARATOR));
  }

  /** Whatever the shard name, the announcement of an exit is read as one. */
  lemma ExitReadAsExit(peer: PeerId, shard: string)
    ensures Decode(Framed(ShardExit(peer, shard))) == Protocol(ShardExit(peer, Split(shard, SEPARATOR)[0]))
  {
    ShardParts(ShardExit(peer, shard), peer, shard);
    ShardFlagParts(peer, Split(shard, SEPARATOR));
  }

  /** A join announcement is understood exactly if the shard name contains no separator. */
  lemma ShardJoinDecodes(peer: PeerId, shard: string)
    ensures Decode(Framed(ShardJoin(peer, shard))) == Protocol(ShardJoin(peer, shard)) <==> !Contains(shard, SEPARATOR)
  {
    ShardParts(ShardJoin(peer, shard), peer, shard);
    ShardFlagParts(peer, Split(shard, SEPARATOR));
    FirstOfSplit(shard, SEPARATOR);
  }

  /** An exit announcement likewise. */
  lemma ShardExitDecodes(peer: PeerId, shard: string)
    ensures Decode(Framed(ShardExit(peer, shard))) == Protocol(ShardExit(peer, shard)) <==> !Contains(shard, SEPARATOR)
  {
    ShardParts(ShardExit(peer, shard), peer, shard);
    ShardFlagParts(peer, Split(shard, SEPARATOR));
    FirstOfSplit(shard, SEPARATOR);
  }

  /** The first part is kept exactly if it is closed; then the rest is split on its own. */
  lemma FrontKept(p: string, parts: seq<string>, d: string)
    requires d != "" && parts != []
    ensures Split(Join([p] + parts, d), d)[0] == p <==> Closed(p, d)
    ensures Closed(p, d) ==> Split(Join([p] + parts, d), d) == [p] + Split(Join(parts, d), d)
  {
    JoinTakesFront(p, parts, d);
    SplitFront(p, Join(parts, d), d);
  }

  /** The data items a receiver finds in a replicated message. */
  function ArrivedData(data: seq<string>): seq<string> {
    if data == [] then [] else Split(Join(data, SEPARATOR), SEPARATOR)
  }

  lemma DataUnchanged(data: seq<string>)
    ensures ArrivedData(data) == data <==> data == [] || Separable(data, SEPARATOR)
  {
    if data != [] {
      SplitOfJoin(data, SEPARATOR);
    }
  }

  /** What arrives of a replicated message, whatever its data is: times, clock and network as
      they were sent, and the data as it is split again. */
  lemma ReplicatedArrives(timestamp: u64, clock: u64, network: string, data: seq<string>)
    requires Closed(network, SEPARATOR)
    ensures Decode(Framed(Replicated(timestamp, clock, network, data))) ==
      Protocol(Replicated(timestamp, clock, network, ArrivedData(data)))
  {
    var m := Replicated(timestamp, clock, network, data);
    SplitOfFramed(m);
    if data == [] {
      ClosedContainsNone(network, SEPARATOR);
      SplitOfOne(network, SEPARATOR);
    } else {
      FrontKept(network, data, SEPARATOR);
    }
    assert Split(Framed(m), SEPARATOR) == [REPL_GOSSIP_FLAG, Print(timestamp), Print(clock)] + ([network] + ArrivedData(data));
    ReplicatedParts(timestamp, clock, network, ArrivedData(data));
  }

  lemma TwoParts(p: string, q: string, d: string)
    requires d != ""
    ensures var parts := Split(Join([p, q], d), d);
      |parts| >= 2 && parts[0] == p && parts[1] == q <==> Separable([p, q], d)
  {
    assert [p, q] == [p] + [q];
    FrontKept(p, [q], d);
    FirstOfSplit(q, d);
    SeparableCons(p, [q], d);
  }

  lemma ConfirmationParts(rest: seq<string>)
    ensures DecodeParts([STRONG_CONSISTENCY_FLAG] + rest) ==
      if |rest| < 2 then IndexPanic else Protocol(Confirmation(rest[0], rest[1]))
  {
    FlagsDiffer();
  }

  /** A confirmation is understood exactly if network and id do not collide with the separator. */
  lemma ConfirmationDecodes(network: string, messageId: string)
    ensures var m := Confirmation(network, messageId);
      Decode(Framed(m)) == Protocol(m) <==> Separable(Payload(m), SEPARATOR)
  {
    var m := Confirmation(network, messageId);
    var rest := Split(Join([network, messageId], SEPARATOR), SEPARATOR);
    assert Split(Framed(m), SEPARATOR) == [STRONG_CONSISTENCY_FLAG] + rest by {
      SplitOfFramed(m);
    }
    ConfirmationParts(rest);
    TwoParts(network, messageId, SEPARATOR);
  }

  lemma AdvertisementParts(rest: seq<string>)
    ensures DecodeParts([EVENTUAL_CONSISTENCY_FLAG] + rest) ==
      if |rest| < 4 then IndexPanic
      else Protocol(Advertisement(rest[0], rest[1], ParseOrZero(rest[2]), ParseOrZero(rest[3]), rest[4..]))
  {
    FlagsDiffer();
    var parts := [EVENTUAL_CONSISTENCY_FLAG] + rest;
    assert |rest| >= 4 ==> parts[5..] == rest[4..];
  }

  lemma ClocksKept(minClock: u64, maxClock: u64, ids: seq<string>)
    ensures var clocks := [Print(minClock), Print(maxClock)];
      Split(Join(clocks + ids, SEPARATOR), SEPARATOR) ==
        if ids == [] then clocks else clocks + Split(Join(ids, SEPARATOR), SEPARATOR)
  {
    var clocks := [Print(minClock), Print(maxClock)];
    assert forall c | c in clocks :: '~' !in c;
    if ids == [] {
      assert clocks + ids == [Print(minClock)] + [Print(maxClock)];
      SplitTakesPrefix([Print(minClock)], [Print(maxClock)], SEPARATOR);
      PlainIsClosed(Print(maxClock), SEPARATOR);
    } else {
      SplitTakesPrefix(clocks, ids, SEPARATOR);
    }
  }

  lemma FrontsKept(p: string, q: string, parts: seq<string>, d: string)
    requires d != "" && parts != []
    requires var rest := Split(Join([p] + ([q] + parts), d), d); |rest| >= 2 && rest[0] == p && rest[1] == q
    ensures Split(Join([p] + ([q] + parts), d), d) == [p, q] + Split(Join(parts, d), d)
  {
    FrontKept(p, [q] + parts, d);
    var tail := Split(Join([q] + parts, d), d);
    assert tail[0] == ([p] + tail)[1];
    FrontKept(q, parts, d);
  }

  /** If names and ids are read back, then so are the clocks between them. */
  lemma AllPartsKept(p: string, q: string, clocks: seq<string>, ids: seq<string>, rest: seq<string>, tail: seq<string>)
    requires |clocks| == 2 && rest == [p, q] + tail && |rest| >= 4 && rest[4..] == ids
    requires tail == if ids == [] then clocks else clocks + tail[2..]
    ensures rest == [p, q] + clocks + ids
  {
    assert rest[4..] == tail[2..];
  }

  lemma AdvertisementKept(p: string, q: string, minClock: u64, maxClock: u64, ids: seq<string>)
    requires var rest := Split(Join([p] + ([q] + ([Print(minClock), Print(maxClock)] + ids)), SEPARATOR), SEPARATOR);
      |rest| >= 4 && rest[0] == p && rest[1] == q && rest[4..] == ids
    ensures Separable([p] + ([q] + ([Print(minClock), Print(maxClock)] + ids)), SEPARATOR)
  {
    var clocks := [Print(minClock), Print(maxClock)];
    var parts := [p] + ([q] + (clocks + ids));
    FrontsKept(p, q, clocks + ids, SEPARATOR);
    ClocksKept(minClock, maxClock, ids);
    AllPartsKept(p, q, clocks, ids, Split(Join(parts, SEPARATOR), SEPARATOR), Split(Join(clocks + ids, SEPARATOR), SEPARATOR));
    assert parts == [p, q] + clocks + ids;
    SplitOfJoin(parts, SEPARATOR);
  }

  lemma AdvertisementPayload(m: Message)
    requires m.Advertisement?
    ensures Payload(m) == [m.advertiser] + ([m.network] + ([Print(m.minClock), Print(m.maxClock)] + m.ids))
  {
  }

  lemma AdvertisementSplit(m: Message)
    requires m.Advertisement?
    ensures Split(Framed(m), SEPARATOR) == [EVENTUAL_CONSISTENCY_FLAG] + Split(Join(Payload(m), SEPARATOR), SEPARATOR)
  {
    SplitOfFramed(m);
  }

  /** An advertisement is understood exactly if its names and ids do not collide with the
      separator. */
  lemma AdvertisementDecodes(m: Message)
    requires m.Advertisement?
    ensures Decode(Framed(m)) == Protocol(m) <==> Separable(Payload(m), SEPARATOR)
  {
    if Separable(Payload(m), SEPARATOR) {
      SeparableDecodes(m);
    } else if Decode(Framed(m)) == Protocol(m) {
      AdvertisementPayload(m);
      AdvertisementSplit(m);
      AdvertisementParts(Split(Join(Payload(m), SEPARATOR), SEPARATOR));
      AdvertisementKept(m.advertiser, m.network, m.minClock, m.maxClock, m.ids);
    }
  }

  lemma OnePart(p: string, d: string)
    requires d != ""
    ensures Separable([p], d) <==> !Contains(p, d)
  {
  }

  /** Every protocol message is decoded as it was sent exactly if its payload is separable. */
  lemma DecodesExactly(m: Message)
    ensures Decode(Framed(m)) == Protocol(m) <==> Separable(Payload(m), SEPARATOR)
  {
    match m
    case Replicated(timestamp, clock, network, data) => ReplicatedDecodes(timestamp, clock, network, data);
    case Confirmation(network, messageId) => ConfirmationDecodes(network, messageId);
    case Advertisement(_, _, _, _, _) => AdvertisementDecodes(m);
    case ShardJoin(peer, shard) =>
      ShardJoinDecodes(peer, shard);
      OnePart(shard, SEPARATOR);
    case ShardExit(peer, shard) =>
      ShardExitDecodes(peer, shard);
      OnePart(shard, SEPARATOR);
  }

  // ---- The texts themselves ----------------------------------------------------------

  lemma {:induction false} JoinThree(a: string, b: string, rest: seq<string>, d: string)
    requires rest != []
    ensures Join([a, b] + rest, d) == a + d + (b + d + Join(rest, d))
  {
    assert [a, b] + rest == [a] + ([b] + rest);
    JoinTakesFront(a, [b] + rest, d);
    JoinTakesFront(b, rest, d);
  }

  /** The messages of a replica network, character for character. */
  lemma ReplicatedOnTheWire(timestamp: u64, clock: u64, network: string, item: string)
    ensures Framed(Replicated(timestamp, clock, network, [item])) ==
      "REPL_GOSSIP_FLAG__@@" + "~~##~~" + (Print(timestamp) + "~~##~~" + (Print(clock) + "~~##~~" + (network + "~~##~~" + item)))
  {
    var m := Replicated(timestamp, clock, network, [item]);
    assert Parts(m) == [REPL_GOSSIP_FLAG, Print(timestamp)] + ([Print(clock), network] + [item]);
    JoinThree(REPL_GOSSIP_FLAG, Print(timestamp), [Print(clock), network] + [item], SEPARATOR);
    JoinThree(Print(clock), network, [item], SEPARATOR);
  }

  lemma ConfirmationOnTheWire(network: string, messageId: string)
    ensures Framed(Confirmation(network, messageId)) == "STRONG_CON__@@" + "~~##~~" + (network + "~~##~~" + messageId)
  {
    assert Parts(Confirmation(network, messageId)) == [STRONG_CONSISTENCY_FLAG, network] + [messageId];
    JoinThree(STRONG_CONSISTENCY_FLAG, network, [messageId], SEPARATOR);
  }

  lemma AdvertisementOnTheWire(advertiser: string, network: string, minClock: u64, maxClock: u64, id: string)
    ensures Framed(Advertisement(advertiser, network, minClock, maxClock, [id])) ==
      "EVENTUAL_CON_@@" + "~~##~~" + (advertiser + "~~##~~" + (network + "~~##~~" + (Print(minClock) + "~~##~~"
        + (Print(maxClock) + "~~##~~" + id))))
  {
    var m := Advertisement(advertiser, network, minClock, maxClock, [id]);
    var clocks := [Print(minClock), Print(maxClock)] + [id];
    assert Parts(m) == [EVENTUAL_CONSISTENCY_FLAG, advertiser] + ([network] + clocks);
    JoinThree(EVENTUAL_CONSISTENCY_FLAG, advertiser, [network] + clocks, SEPARATOR);
    JoinTakesFront(network, clocks, SEPARATOR);
    JoinThree(Print(minClock), Print(maxClock), [id], SEPARATOR);
  }

  lemma ShardMessagesOnTheWire(peer: PeerId, shard: string)
    ensures Framed(ShardJoin(peer, shard)) == "SHARD_GOSSIP_JOIN_FLAG__@@" + "~~##~~" + (peer + "~~##~~" + shard)
    ensures Framed(ShardExit(peer, shard)) == "SHARD_GOSSIP_EXIT_FLAG__@@" + "~~##~~" + (peer + "~~##~~" + shard)
  {
    assert Parts(ShardJoin(peer, shard)) == [SHARD_GOSSIP_JOIN_FLAG, peer] + [shard];
    assert Parts(ShardExit(peer, shard)) == [SHARD_GOSSIP_EXIT_FLAG, peer] + [shard];
    JoinThree(SHARD_GOSSIP_JOIN_FLAG, peer, [shard], SEPARATOR);
    JoinThree(SHARD_GOSSIP_EXIT_FLAG, peer, [shard], SEPARATOR);
  }

  /** A text that does not start with one of the five flags reaches the application in parts. */
  lemma OtherTextsReachApplication(text: string)
    requires Split(text, "~~##~~")[0] !in
      {"REPL_GOSSIP_FLAG__@@", "STRONG_CON__@@", "EVENTUAL_CON_@@", "SHARD_GOSSIP_JOIN_FLAG__@@", "SHARD_GOSSIP_EXIT_FLAG__@@"}
    ensures Decode(text) == Application(Split(text, "~~##~~"))
  {
  }

  /** A flagged text with too few parts makes the event loop index out of range; a join or exit
      whose peer cannot be parsed is ignored. */
  lemma MalformedTexts(text: string)
    ensures var parts := Split(text, "~~##~~");
      && (parts[0] == "REPL_GOSSIP_FLAG__@@" && |parts| < 4 ==> Decode(text) == IndexPanic)
      && (parts[0] == "STRONG_CON__@@" && |parts| < 3 ==> Decode(text) == IndexPanic)
      && (parts[0] == "EVENTUAL_CON_@@" && |parts| < 5 ==> Decode(text) == IndexPanic)
      && (parts[0] in {"SHARD_GOSSIP_JOIN_FLAG__@@", "SHARD_GOSSIP_EXIT_FLAG__@@"} ==>
            && (|parts| < 2 ==> Decode(text) == IndexPanic)
            && (|parts| >= 2 && !IsPeerText(parts[1]) ==> Decode(text) == Ignored)
            && (|parts| == 2 && IsPeerText(parts[1]) ==> Decode(text) == IndexPanic))
  {
    FlagsDiffer();
  }

  /** Numbers in a flagged text that cannot be read count as zero, and further parts of a
      confirmation or of a shard message are dropped. */
  lemma LenientTexts(text: string)
    ensures var parts := Split(text, "~~##~~");
      && (parts[0] == "REPL_GOSSIP_FLAG__@@" && |parts| >= 4 ==>
            Decode(text) == Protocol(Replicated(ParseOrZero(parts[1]), ParseOrZero(parts[2]), parts[3], parts[4..])))
      && (parts[0] == "STRONG_CON__@@" && |parts| >= 3 ==> Decode(text) == Protocol(Confirmation(parts[1], parts[2])))
      && (parts[0] == "SHARD_GOSSIP_JOIN_FLAG__@@" && |parts| >= 3 && IsPeerText(parts[1]) ==>
            Decode(text) == Protocol(ShardJoin(parts[1], parts[2])))
      && (parts[0] == "SHARD_GOSSIP_EXIT_FLAG__@@" && |parts| >= 3 && IsPeerText(parts[1]) ==>
            Decode(text) == Protocol(ShardExit(parts[1], parts[2])))
  {
    FlagsDiffer();
  }
}
