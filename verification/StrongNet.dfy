/**
 Strong consistency over a whole network. A fixed set of members publishes messages; the
 network delivers each copy of a message and each confirmation at most once, to any member
 but its sender, in any order, possibly never. Counting a confirmation and releasing the
 entry are separate steps, so several handlers of one node can interleave.
 */
module StrongNet {
  import opened Wrappers
  import opened U64
  import opened Entries
  import opened OrderedBuffer
  import opened Eviction
  import opened ReplicaBuffer
  import AntiEntropy
  import Framing
  import Gossip

  datatype Params = Params(members: set<PeerId>, config: ReplNetworkConfig)

  ghost predicate ValidParams(par: Params) {
    && par.config.Consistency().Strong?
    && par.config.Capacity() >= 1
    && 1 <= |par.members| <= MAX
  }

  function ReplicaPeers(par: Params): (n: u64)
    requires 1 <= |par.members| <= MAX
  {
    |par.members| - 1
  }

  function Required(par: Params): u64
    requires 1 <= |par.members| <= MAX
  {
    par.config.PeersCount(ReplicaPeers(par))
  }

  predicate DirectNet(par: Params)
    requires 1 <= |par.members| <= MAX && par.config.Consistency().Strong?
  {
    Direct(par.config.Consistency().consensus, ReplicaPeers(par))
  }

  /** Message `id` at node `at`. */
  datatype Copy = Copy(at: PeerId, id: string)

  /** The confirmation of message `id` that `from` sends to `to`. */
  datatype Confirm = Confirm(to: PeerId, from: PeerId, id: string)

  datatype Net = Net(
    nodes: map<PeerId, Node>,
    consumed: map<PeerId, seq<Entry>>,
    published: map<string, Publication>,
    copies: set<Copy>,               // undelivered copies of messages
    confirms: set<Confirm>,          // undelivered confirmations
    moving: set<Confirm>,            // handlers that have counted and will release
    accepted: set<Copy>,             // history: what was accepted by `push`
    heard: map<Copy, set<PeerId>>,   // history: whose confirmations a staged entry received, itself included
    released: seq<Copy>,             // history: entries in the order they became public
    evicted: set<Copy>,              // history: staged entries given up for lack of room
    missed: set<Confirm>)            // history: confirmations that arrived while their message was not staged

  datatype Action =
    | Publish(publisher: PeerId, id: string, clock: u64, timestamp: u64, data: seq<string>)
    | Accept(copy: Copy, now: u64)
    | Hear(confirm: Confirm)
    | Move(confirm: Confirm, now: u64)
    | Consume(node: PeerId)

  function Init(par: Params): Net {
    Net(map p | p in par.members :: Node(map[], []), map p | p in par.members :: [],
        map[], {}, {}, {}, {}, map[], [], {}, {})
  }

  ghost predicate Shape(par: Params, s: Net) {
    && s.nodes.Keys == par.members
    && s.consumed.Keys == par.members
    && (forall p | p in par.members :: Sorted(s.nodes[p].queue))
  }

  ghost predicate Enabled(par: Params, s: Net, a: Action) {
    match a
    case Publish(p, id, _, _, _) => p in par.members && id !in s.published
    case Accept(c, _) => c in s.copies && c.at in s.nodes && c.id in s.published
    case Hear(f) => f in s.confirms && f.to in s.nodes
    case Move(f, _) => f in s.moving && f.to in s.nodes
    case Consume(p) => p in s.nodes && p in s.consumed && s.nodes[p].queue != []
  }

  /** The buffer entry a receiver makes of a message. */
  function Received(m: Publication, id: string, now: u64): Entry {
    Entry(Gossip.ArrivedData(m.data), m.clock, m.timestamp, now, id, m.publisher, Some(1))
  }

  ghost function DoPublish(par: Params, s: Net, p: PeerId, id: string, m: Publication): Net {
    s.(published := s.published[id := m],
       copies := s.copies + set q | q in par.members && q != p :: Copy(q, id))
  }

  ghost function DoAccept(par: Params, s: Net, c: Copy, now: u64): Net
    requires ValidParams(par) && c.at in s.nodes && c.id in s.published
  {
    var e := Received(s.published[c.id], c.id, now);
    var node := PushStrong(s.nodes[c.at], par.config.Consistency().consensus, ReplicaPeers(par), e);
    s.(nodes := s.nodes[c.at := node],
       copies := s.copies - {c},
       accepted := s.accepted + {c},
       heard := s.heard[c := {c.at}],
       confirms := s.confirms + (if DirectNet(par) then {} else set q | q in par.members && q != c.at :: Confirm(q, c.at, c.id)),
       released := s.released + (if DirectNet(par) then [c] else []),
       evicted := s.evicted + GivenUp(s, c.at))
  }

  /** What the node gives up when it makes room for one more entry. */
  ghost function GivenUp(s: Net, p: PeerId): set<Copy>
    requires p in s.nodes
  {
    set id | id in s.nodes[p].temp && id !in WithRoom(s.nodes[p].temp) :: Copy(p, id)
  }

  ghost function DoHear(par: Params, s: Net, f: Confirm): Net
    requires ValidParams(par) && f.to in s.nodes
  {
    var node := s.nodes[f.to];
    var temp := Counted(node.temp, f.id, Required(par));
    var c := Copy(f.to, f.id);
    s.(nodes := s.nodes[f.to := node.(temp := temp)],
       confirms := s.confirms - {f},
       heard := if f.id in node.temp && c in s.heard then s.heard[c := s.heard[c] + {f.from}] else s.heard,
       moving := s.moving + (if Confirmed(temp, f.id, Required(par)) then {f} else {}),
       missed := s.missed + if f.id in node.temp then {} else {f})
  }

  ghost function DoMove(par: Params, s: Net, f: Confirm, now: u64): Net
    requires ValidParams(par) && f.to in s.nodes
  {
    s.(nodes := s.nodes[f.to := Released(s.nodes[f.to], f.id, par.config, now)],
       moving := s.moving - {f},
       released := s.released + if f.id in s.nodes[f.to].temp then [Copy(f.to, f.id)] else [])
  }

  ghost function DoConsume(s: Net, p: PeerId): Net
    requires p in s.nodes && p in s.consumed && s.nodes[p].queue != []
  {
    var node := s.nodes[p];
    s.(nodes := s.nodes[p := node.(queue := node.queue[1..])],
       consumed := s.consumed[p := s.consumed[p] + [node.queue[0]]])
  }

  /** One step; an action that is not possible changes nothing. */
  ghost function Step(par: Params, s: Net, a: Action): Net
    requires ValidParams(par)
  {
    if !Enabled(par, s, a) then s
    else match a
      case Publish(p, id, clock, timestamp, data) => DoPublish(par, s, p, id, Publication(p, clock, timestamp, data))
      case Accept(c, now) => DoAccept(par, s, c, now)
      case Hear(f) => DoHear(par, s, f)
      case Move(f, now) => DoMove(par, s, f, now)
      case Consume(p) => DoConsume(s, p)
  }

  ghost function Run(par: Params, actions: seq<Action>): Net
    requires ValidParams(par)
  {
    if actions == [] then Init(par)
    else Step(par, Run(par, actions[..|actions| - 1]), actions[|actions| - 1])
  }

  // ---- Invariants ------------------------------------------------------------------

  /** Nobody receives its own message, and no copy arrives twice. */
  ghost predicate CopiesInv(par: Params, s: Net) {
    && (forall id | id in s.published :: s.published[id].publisher in par.members)
    && (forall c | c in s.copies || c in s.accepted ::
          c.id in s.published && c.at in par.members && c.at != s.published[c.id].publisher)
    && (forall c | c in s.copies :: c !in s.accepted)
    && s.heard.Keys == s.accepted
  }

  /** A confirmation in flight comes from a node that accepted and is not yet counted. */
  ghost predicate ConfirmsInv(par: Params, s: Net) {
    forall f | f in s.confirms ::
      && f.to in par.members && f.to != f.from
      && Copy(f.from, f.id) in s.accepted
      && (Copy(f.to, f.id) in s.heard ==> f.from !in s.heard[Copy(f.to, f.id)])
  }

  /** Every confirmation an entry has received is from a node that accepted the message. */
  ghost predicate HeardInv(s: Net) {
    forall c | c in s.heard :: c.at in s.heard[c] && forall p | p in s.heard[c] :: Copy(p, c.id) in s.accepted
  }

  /** The count a staged entry carries when `heard` nodes are known to have it. */
  function Tally(required: u64, heard: nat): (n: u64)
  {
    if required <= 1 || heard <= 1 then 1 else if heard < required then heard else required
  }

  /** What is known about the entry staged at `p` under `id`. */
  ghost predicate StagedOk(par: Params, s: Net, p: PeerId, id: string, e: Entry)
    requires ValidParams(par)
  {
    var c := Copy(p, id);
    && c in s.heard
    && c !in s.released
    && e.messageId == id
    && e.confirmations == Some(Tally(Required(par), |s.heard[c]|))
    && Faithful(s, e)
  }

  ghost predicate TempInv(par: Params, s: Net)
    requires ValidParams(par)
  {
    forall p, id | p in s.nodes && id in s.nodes[p].temp ::
      !DirectNet(par) && StagedOk(par, s, p, id, s.nodes[p].temp[id])
  }

  ghost predicate Faithful(s: Net, e: Entry) {
    && e.messageId in s.published
    && var m := s.published[e.messageId];
       e.data == Gossip.ArrivedData(m.data) && e.lamportClock == m.clock && e.outgoingTimestamp == m.timestamp && e.sender == m.publisher
  }

  ghost predicate MovingInv(par: Params, s: Net)
    requires ValidParams(par)
  {
    forall f | f in s.moving ::
      var c := Copy(f.to, f.id);
      c in s.heard && f.from in s.heard[c] && 2 <= Required(par) <= |s.heard[c]|
  }

  ghost predicate ReleasedInv(par: Params, s: Net)
    requires ValidParams(par)
  {
    && (forall c | c in s.released ::
          && c in s.heard
          && (!DirectNet(par) ==> 2 <= Required(par) <= |s.heard[c]|))
    && (forall i, j | 0 <= i < j < |s.released| :: s.released[i] != s.released[j])
  }

  ghost predicate Public(s: Net, p: PeerId, e: Entry) {
    p in s.nodes && p in s.consumed && (e in s.nodes[p].queue || e in s.consumed[p])
  }

  ghost predicate PublicInv(par: Params, s: Net)
    requires ValidParams(par)
  {
    forall p, e | Public(s, p, e) ::
      && Copy(p, e.messageId) in s.released
      && (!DirectNet(par) ==> e.confirmations == Some(Required(par)))
      && Faithful(s, e)
  }

  ghost predicate Inv(par: Params, s: Net)
    requires ValidParams(par)
  {
    && Shape(par, s) && CopiesInv(par, s) && ConfirmsInv(par, s) && HeardInv(s) && TempInv(par, s)
    && MovingInv(par, s) && ReleasedInv(par, s) && PublicInv(par, s)
  }

  lemma PublishKeepsInv(par: Params, s: Net, p: PeerId, id: string, m: Publication)
    requires ValidParams(par) && Inv(par, s)
    requires p in par.members && id !in s.published && m.publisher == p
    ensures Inv(par, DoPublish(par, s, p, id, m))
  {
    var t := DoPublish(par, s, p, id, m);
    assert t.copies !! t.accepted by {
      assert forall c | c in s.accepted :: c.id != id;
    }
    assert forall e :: Faithful(s, e) ==> Faithful(t, e);
    assert forall q, e :: Public(t, q, e) ==> Public(s, q, e);
  }

  lemma WithRoomIn(temp: Temp)
    ensures forall k | k in WithRoom(temp) :: k in temp && WithRoom(temp)[k] == temp[k]
    ensures temp == map[] ==> WithRoom(temp) == map[]
  {
  }

  lemma AcceptKeepsShape(par: Params, s: Net, c: Copy, now: u64)
    requires ValidParams(par) && Shape(par, s)
    requires c in s.copies && c.at in s.nodes && c.id in s.published
    ensures Shape(par, DoAccept(par, s, c, now))
  {
    InsertCorrect(s.nodes[c.at].queue, Received(s.published[c.id], c.id, now));
  }

  lemma AcceptKeepsCopiesInv(par: Params, s: Net, c: Copy, now: u64)
    requires ValidParams(par) && CopiesInv(par, s)
    requires c in s.copies && c.at in s.nodes && c.id in s.published
    ensures CopiesInv(par, DoAccept(par, s, c, now))
  {
  }

  lemma AcceptKeepsConfirmsInv(par: Params, s: Net, c: Copy, now: u64)
    requires ValidParams(par) && CopiesInv(par, s) && ConfirmsInv(par, s) && HeardInv(s)
    requires c in s.copies && c.at in s.nodes && c.id in s.published
    ensures ConfirmsInv(par, DoAccept(par, s, c, now))
  {
  }

  lemma AcceptKeepsHeardInv(par: Params, s: Net, c: Copy, now: u64)
    requires ValidParams(par) && CopiesInv(par, s) && HeardInv(s)
    requires c in s.copies && c.at in s.nodes && c.id in s.published
    ensures HeardInv(DoAccept(par, s, c, now))
  {
  }

  /** What an acceptance stages, and what it leaves staged. */
  lemma AcceptedTemp(par: Params, s: Net, c: Copy, now: u64, p: PeerId, id: string)
    requires ValidParams(par) && c.at in s.nodes && c.id in s.published
    requires var t := DoAccept(par, s, c, now); p in t.nodes && id in t.nodes[p].temp
    ensures var t := DoAccept(par, s, c, now);
      if Copy(p, id) == c && !DirectNet(par) then t.nodes[p].temp[id] == Received(s.published[id], id, now)
      else p in s.nodes && id in s.nodes[p].temp && t.nodes[p].temp[id] == s.nodes[p].temp[id]
  {
    WithRoomIn(s.nodes[c.at].temp);
  }

  lemma StagedAsNew(par: Params, s: Net, t: Net, c: Copy, now: u64)
    requires ValidParams(par) && c.id in s.published && c !in t.released
    requires t.published == s.published && c in t.heard && t.heard[c] == {c.at}
    ensures StagedOk(par, t, c.at, c.id, Received(s.published[c.id], c.id, now))
  {
    assert |{c.at}| == 1;
  }

  lemma AcceptKeepsStaged(par: Params, s: Net, c: Copy, now: u64, p: PeerId, id: string)
    requires ValidParams(par) && CopiesInv(par, s) && TempInv(par, s) && ReleasedInv(par, s)
    requires c in s.copies && c.at in s.nodes && c.id in s.published
    requires var t := DoAccept(par, s, c, now); p in t.nodes && id in t.nodes[p].temp
    ensures var t := DoAccept(par, s, c, now); !DirectNet(par) && StagedOk(par, t, p, id, t.nodes[p].temp[id])
  {
    var t := DoAccept(par, s, c, now);
    AcceptedTemp(par, s, c, now, p, id);
    assert c !in s.heard && c !in s.released;
    if Copy(p, id) == c && !DirectNet(par) {
      StagedAsNew(par, s, t, c, now);
    } else {
      assert StagedOk(par, s, p, id, s.nodes[p].temp[id]);
    }
  }

  lemma AcceptKeepsTempInv(par: Params, s: Net, c: Copy, now: u64)
    requires ValidParams(par) && CopiesInv(par, s) && TempInv(par, s) && ReleasedInv(par, s)
    requires c in s.copies && c.at in s.nodes && c.id in s.published
    ensures TempInv(par, DoAccept(par, s, c, now))
  {
    var t := DoAccept(par, s, c, now);
    forall p, id | p in t.nodes && id in t.nodes[p].temp
      ensures !DirectNet(par) && StagedOk(par, t, p, id, t.nodes[p].temp[id])
    {
      AcceptKeepsStaged(par, s, c, now, p, id);
    }
  }

  lemma AcceptKeepsMovingInv(par: Params, s: Net, c: Copy, now: u64)
    requires ValidParams(par) && CopiesInv(par, s) && MovingInv(par, s)
    requires c in s.copies && c.at in s.nodes && c.id in s.published
    ensures MovingInv(par, DoAccept(par, s, c, now))
  {
  }

  lemma AcceptKeepsReleasedInv(par: Params, s: Net, c: Copy, now: u64)
    requires ValidParams(par) && CopiesInv(par, s) && ReleasedInv(par, s)
    requires c in s.copies && c.at in s.nodes && c.id in s.published
    ensures ReleasedInv(par, DoAccept(par, s, c, now))
  {
  }

  lemma AcceptKeepsPublicInv(par: Params, s: Net, c: Copy, now: u64)
    requires ValidParams(par) && Shape(par, s) && CopiesInv(par, s) && PublicInv(par, s)
    requires c in s.copies && c.at in s.nodes && c.id in s.published
    ensures PublicInv(par, DoAccept(par, s, c, now))
  {
    InsertCorrect(s.nodes[c.at].queue, Received(s.published[c.id], c.id, now));
  }

  lemma AcceptKeepsInv(par: Params, s: Net, c: Copy, now: u64)
    requires ValidParams(par) && Inv(par, s)
    requires c in s.copies
    ensures Inv(par, DoAccept(par, s, c, now))
  {
    AcceptKeepsShape(par, s, c, now);
    AcceptKeepsCopiesInv(par, s, c, now);
    AcceptKeepsConfirmsInv(par, s, c, now);
    AcceptKeepsHeardInv(par, s, c, now);
    AcceptKeepsTempInv(par, s, c, now);
    AcceptKeepsMovingInv(par, s, c, now);
    AcceptKeepsReleasedInv(par, s, c, now);
    AcceptKeepsPublicInv(par, s, c, now);
  }

  /** A confirmation adds one node to those an entry has heard of, if the entry is staged. */
  lemma HearGrows(par: Params, s: Net, f: Confirm)
    requires ValidParams(par) && ConfirmsInv(par, s)
    requires f in s.confirms && f.to in s.nodes
    requires f.id in s.nodes[f.to].temp ==> Copy(f.to, f.id) in s.heard
    ensures var t := DoHear(par, s, f);
      && t.heard.Keys == s.heard.Keys
      && forall c | c in s.heard ::
           if c == Copy(f.to, f.id) && f.id in s.nodes[f.to].temp
           then t.heard[c] == s.heard[c] + {f.from} && |t.heard[c]| == |s.heard[c]| + 1
           else t.heard[c] == s.heard[c]
  {
  }

  lemma MoveQueue(par: Params, s: Net, f: Confirm, now: u64)
    requires ValidParams(par) && Inv(par, s)
    requires f in s.moving
    ensures var queue := DoMove(par, s, f, now).nodes[f.to].queue;
      && Sorted(queue)
      && forall e | e in queue ::
           e in s.nodes[f.to].queue || (f.id in s.nodes[f.to].temp && e == s.nodes[f.to].temp[f.id])
  {
    var node := s.nodes[f.to];
    EvictedMeaning(node.queue, par.config.Capacity(), par.config.Expiry(), now);
    if f.id in node.temp {
      InsertCorrect(Evicted(node.queue, par.config.Capacity(), par.config.Expiry(), now), node.temp[f.id]);
    }
  }

  lemma HeardOne(s: Net, c: Copy)
    requires HeardInv(s) && c in s.heard
    ensures |s.heard[c]| >= 1
  {
  }

  /** One more confirmation moves the count from one tally to the next. */
  lemma CountedTally(temp: Temp, id: string, required: u64, heard: nat)
    requires id in temp && heard >= 1 && temp[id].confirmations == Some(Tally(required, heard))
    ensures Counted(temp, id, required)[id] == temp[id].(confirmations := Some(Tally(required, heard + 1)))
  {
  }

  lemma NotDirectNotOne(par: Params)
    requires ValidParams(par) && !DirectNet(par)
    ensures Required(par) != 1
  {
  }

  lemma HearKeepsShape(par: Params, s: Net, f: Confirm)
    requires ValidParams(par) && Shape(par, s)
    requires f in s.confirms && f.to in s.nodes
    ensures Shape(par, DoHear(par, s, f))
  {
  }

  lemma HearKeepsCopiesInv(par: Params, s: Net, f: Confirm)
    requires ValidParams(par) && CopiesInv(par, s)
    requires f in s.confirms && f.to in s.nodes
    ensures CopiesInv(par, DoHear(par, s, f))
  {
  }

  lemma HearKeepsConfirmsInv(par: Params, s: Net, f: Confirm)
    requires ValidParams(par) && ConfirmsInv(par, s)
    requires f in s.confirms && f.to in s.nodes
    ensures ConfirmsInv(par, DoHear(par, s, f))
  {
  }

  lemma HearKeepsHeardInv(par: Params, s: Net, f: Confirm)
    requires ValidParams(par) && ConfirmsInv(par, s) && HeardInv(s)
    requires f in s.confirms && f.to in s.nodes
    ensures HeardInv(DoHear(par, s, f))
  {
  }

  lemma HearKeepsStaged(par: Params, s: Net, f: Confirm, p: PeerId, id: string)
    requires ValidParams(par) && HeardInv(s) && ConfirmsInv(par, s)
    requires f in s.confirms && f.to in s.nodes
    requires p in s.nodes && id in s.nodes[p].temp && StagedOk(par, s, p, id, s.nodes[p].temp[id])
    requires f.id in s.nodes[f.to].temp ==> Copy(f.to, f.id) in s.heard
    ensures var t := DoHear(par, s, f); id in t.nodes[p].temp && StagedOk(par, t, p, id, t.nodes[p].temp[id])
  {
    var t := DoHear(par, s, f);
    HearGrows(par, s, f);
    if Copy(p, id) == Copy(f.to, f.id) {
      HeardOne(s, Copy(p, id));
      CountedTally(s.nodes[p].temp, id, Required(par), |s.heard[Copy(p, id)]|);
    } else {
      assert t.nodes[p].temp[id] == s.nodes[p].temp[id];
    }
  }

  lemma HearKeepsTempInv(par: Params, s: Net, f: Confirm)
    requires ValidParams(par) && HeardInv(s) && ConfirmsInv(par, s) && TempInv(par, s)
    requires f in s.confirms && f.to in s.nodes
    ensures TempInv(par, DoHear(par, s, f))
  {
    var t := DoHear(par, s, f);
    forall p, id | p in t.nodes && id in t.nodes[p].temp
      ensures !DirectNet(par) && StagedOk(par, t, p, id, t.nodes[p].temp[id])
    {
      assert id in s.nodes[p].temp;
      HearKeepsStaged(par, s, f, p, id);
    }
  }

  lemma HearKeepsMovingInv(par: Params, s: Net, f: Confirm)
    requires ValidParams(par) && HeardInv(s) && ConfirmsInv(par, s) && TempInv(par, s) && MovingInv(par, s)
    requires f in s.confirms && f.to in s.nodes
    ensures MovingInv(par, DoHear(par, s, f))
  {
    HearGrows(par, s, f);
    HearKeepsTempInv(par, s, f);
    if !DirectNet(par) {
      NotDirectNotOne(par);
    }
  }

  lemma HearKeepsReleasedInv(par: Params, s: Net, f: Confirm)
    requires ValidParams(par) && ConfirmsInv(par, s) && TempInv(par, s) && ReleasedInv(par, s)
    requires f in s.confirms && f.to in s.nodes
    ensures ReleasedInv(par, DoHear(par, s, f))
  {
  }

  lemma HearKeepsPublicInv(par: Params, s: Net, f: Confirm)
    requires ValidParams(par) && Shape(par, s) && PublicInv(par, s)
    requires f in s.confirms && f.to in s.nodes
    ensures PublicInv(par, DoHear(par, s, f))
  {
  }

  lemma HearKeepsInv(par: Params, s: Net, f: Confirm)
    requires ValidParams(par) && Inv(par, s)
    requires f in s.confirms
    ensures Inv(par, DoHear(par, s, f))
  {
    HearKeepsShape(par, s, f);
    HearKeepsCopiesInv(par, s, f);
    HearKeepsConfirmsInv(par, s, f);
    HearKeepsHeardInv(par, s, f);
    HearKeepsTempInv(par, s, f);
    HearKeepsMovingInv(par, s, f);
    HearKeepsReleasedInv(par, s, f);
    HearKeepsPublicInv(par, s, f);
  }

  lemma MoveKeepsShape(par: Params, s: Net, f: Confirm, now: u64)
    requires ValidParams(par) && Inv(par, s)
    requires f in s.moving && f.to in s.nodes
    ensures Shape(par, DoMove(par, s, f, now))
  {
    MoveQueue(par, s, f, now);
  }

  lemma MoveKeepsCopiesInv(par: Params, s: Net, f: Confirm, now: u64)
    requires ValidParams(par) && CopiesInv(par, s)
    requires f in s.moving && f.to in s.nodes
    ensures CopiesInv(par, DoMove(par, s, f, now))
  {
  }

  lemma MoveKeepsConfirmsInv(par: Params, s: Net, f: Confirm, now: u64)
    requires ValidParams(par) && ConfirmsInv(par, s)
    requires f in s.moving && f.to in s.nodes
    ensures ConfirmsInv(par, DoMove(par, s, f, now))
  {
  }

  lemma MoveKeepsHeardInv(par: Params, s: Net, f: Confirm, now: u64)
    requires ValidParams(par) && HeardInv(s)
    requires f in s.moving && f.to in s.nodes
    ensures HeardInv(DoMove(par, s, f, now))
  {
  }

  lemma MoveKeepsTempInv(par: Params, s: Net, f: Confirm, now: u64)
    requires ValidParams(par) && TempInv(par, s)
    requires f in s.moving && f.to in s.nodes
    ensures TempInv(par, DoMove(par, s, f, now))
  {
  }

  lemma MoveKeepsMovingInv(par: Params, s: Net, f: Confirm, now: u64)
    requires ValidParams(par) && MovingInv(par, s)
    requires f in s.moving && f.to in s.nodes
    ensures MovingInv(par, DoMove(par, s, f, now))
  {
  }

  lemma MoveKeepsReleasedInv(par: Params, s: Net, f: Confirm, now: u64)
    requires ValidParams(par) && TempInv(par, s) && MovingInv(par, s) && ReleasedInv(par, s)
    requires f in s.moving && f.to in s.nodes
    ensures ReleasedInv(par, DoMove(par, s, f, now))
  {
  }

  lemma MoveKeepsPublicInv(par: Params, s: Net, f: Confirm, now: u64)
    requires ValidParams(par) && Inv(par, s)
    requires f in s.moving && f.to in s.nodes
    ensures PublicInv(par, DoMove(par, s, f, now))
  {
    MoveQueue(par, s, f, now);
  }

  lemma MoveKeepsInv(par: Params, s: Net, f: Confirm, now: u64)
    requires ValidParams(par) && Inv(par, s)
    requires f in s.moving
    ensures Inv(par, DoMove(par, s, f, now))
  {
    MoveKeepsShape(par, s, f, now);
    MoveKeepsCopiesInv(par, s, f, now);
    MoveKeepsConfirmsInv(par, s, f, now);
    MoveKeepsHeardInv(par, s, f, now);
    MoveKeepsTempInv(par, s, f, now);
    MoveKeepsMovingInv(par, s, f, now);
    MoveKeepsReleasedInv(par, s, f, now);
    MoveKeepsPublicInv(par, s, f, now);
  }

  lemma ConsumeKeepsInv(par: Params, s: Net, p: PeerId)
    requires ValidParams(par) && Inv(par, s)
    requires p in s.nodes && s.nodes[p].queue != []
    ensures Inv(par, DoConsume(s, p))
  {
    var t := DoConsume(s, p);
    SortedTail(s.nodes[p].queue);
    forall q, e | Public(t, q, e) ensures Public(s, q, e) {
    }
  }

  lemma StepKeepsInv(par: Params, s: Net, a: Action)
    requires ValidParams(par) && Inv(par, s)
    ensures Inv(par, Step(par, s, a))
  {
    if Enabled(par, s, a) {
      match a
      case Publish(p, id, clock, timestamp, data) => PublishKeepsInv(par, s, p, id, Publication(p, clock, timestamp, data));
      case Accept(c, now) => AcceptKeepsInv(par, s, c, now);
      case Hear(f) => HearKeepsInv(par, s, f);
      case Move(f, now) => MoveKeepsInv(par, s, f, now);
      case Consume(p) => ConsumeKeepsInv(par, s, p);
    }
  }

  lemma {:induction false} RunKeepsInv(par: Params, actions: seq<Action>)
    requires ValidParams(par)
    ensures Inv(par, Run(par, actions))
  {
    if actions != [] {
      RunKeepsInv(par, actions[..|actions| - 1]);
      StepKeepsInv(par, Run(par, actions[..|actions| - 1]), actions[|actions| - 1]);
    }
  }

  // ---- Agreement -------------------------------------------------------------------

  /** The nodes that have accepted a message. */
  ghost function Acceptors(par: Params, s: Net, id: string): set<PeerId> {
    set p | p in par.members && Copy(p, id) in s.accepted
  }

  lemma SubsetSize<T>(a: set<T>, b: set<T>)
    requires a <= b
    ensures |a| <= |b|
    ensures |a| == |b| ==> a == b
  {
    assert b == a + (b - a);
  }

  /** A situation that some run leads to. */
  ghost predicate Reachable(par: Params, s: Net)
    requires ValidParams(par)
  {
    exists actions :: s == Run(par, actions)
  }

  lemma ReachableInv(par: Params, s: Net)
    requires ValidParams(par) && Reachable(par, s)
    ensures Inv(par, s)
  {
    var actions :| s == Run(par, actions);
    RunKeepsInv(par, actions);
  }

  /** In every reachable situation, a message that has become public at some node was accepted
      by a quorum of nodes other than its publisher; under `All` that is every other node, and
      each of their confirmations arrived after the releasing node had staged the message. */
  lemma Agreement(par: Params, s: Net, c: Copy)
    requires ValidParams(par) && Reachable(par, s) && c in s.released
    ensures c.id in s.published && c in s.heard
    ensures var others := par.members - {s.published[c.id].publisher};
      && c.at in Acceptors(par, s, c.id) && Acceptors(par, s, c.id) <= others
      && (DirectNet(par) || |Acceptors(par, s, c.id)| >= Required(par))
      && (par.config.Consistency().consensus == All ==> Acceptors(par, s, c.id) == others)
      && (par.config.Consistency().consensus == All && !DirectNet(par) ==> s.heard[c] == others)
  {
    ReachableInv(par, s);
    var others := par.members - {s.published[c.id].publisher};
    var acceptors := Acceptors(par, s, c.id);
    assert |others| == |par.members| - 1;
    assert s.heard[c] <= acceptors by {
      forall p | p in s.heard[c] ensures p in acceptors {
        assert Copy(p, c.id) in s.accepted;
      }
    }
    SubsetSize(s.heard[c], acceptors);
    SubsetSize(s.heard[c], others);
    SubsetSize(acceptors, others);
    HeardOne(s, c);
  }

  /** What the application can read or has read was released, and carries the configured count:
      all other members, or the number given. */
  lemma PublicIsReleased(par: Params, s: Net, p: PeerId, e: Entry)
    requires ValidParams(par) && Reachable(par, s) && Public(s, p, e)
    ensures Copy(p, e.messageId) in s.released
    ensures Faithful(s, e)
    ensures !DirectNet(par) ==> e.confirmations == Some(Required(par))
    ensures par.config.Consistency().consensus == All && |par.members| >= 3 ==> e.confirmations == Some(|par.members| - 1)
    ensures forall k: u64 | par.config.Consistency().consensus == MinPeers(k) && k >= 2 && |par.members| != 2 ::
      e.confirmations == Some(k)
  {
    ReachableInv(par, s);
  }

  /** The configured quorum: all other members, or the number given, have accepted. */
  ghost predicate Quorum(par: Params, s: Net, c: Copy)
    requires ValidParams(par)
  {
    match par.config.Consistency().consensus
    case All => c.id in s.published && Acceptors(par, s, c.id) == par.members - {s.published[c.id].publisher}
    case MinPeers(k) => |Acceptors(par, s, c.id)| >= k
  }

  /** A network of two members skips the quorum that was configured. */
  predicate SkipsQuorum(par: Params)
    requires ValidParams(par)
  {
    match par.config.Consistency().consensus
    case All => false
    case MinPeers(k) => |par.members| == 2 && k >= 2
  }

  ghost predicate QuorumAlways(par: Params)
    requires ValidParams(par)
  {
    forall s, c | Reachable(par, s) && c in s.released :: Quorum(par, s, c)
  }

  /** The configured quorum has accepted every public message in every run exactly if the network
      does not consist of two members with a quorum above one. */
  lemma QuorumExactly(par: Params)
    requires ValidParams(par)
    ensures QuorumAlways(par) <==> !SkipsQuorum(par)
  {
    if SkipsQuorum(par) {
      TwoMembersSkipQuorum(par);
    } else {
      forall s, c | Reachable(par, s) && c in s.released ensures Quorum(par, s, c) {
        Agreement(par, s, c);
        SubsetSize({c.at}, Acceptors(par, s, c.id));
      }
    }
  }

  lemma TwoMembersSkipQuorum(par: Params)
    requires ValidParams(par) && SkipsQuorum(par)
    ensures !QuorumAlways(par)
  {
    var p, q := TwoMembers(par.members);
    var c := Copy(q, "m");
    var a0, a1 := Publish(p, "m", 1, 0, ["x"]), Accept(c, 0);
    RunTwo(par, a0, a1);
    AcceptedAtOnce(par, p, q);
    var s := Run(par, [a0, a1]);
    assert Acceptors(par, s, "m") == {q};
    assert |Acceptors(par, s, c.id)| == 1;
    assert c in s.released && Reachable(par, s) && !Quorum(par, s, c);
  }

  lemma TwoMembers(members: set<PeerId>) returns (p: PeerId, q: PeerId)
    requires |members| == 2
    ensures p != q && members == {p, q}
  {
    p :| p in members;
    assert |members - {p}| == 1;
    q :| q in members - {p};
    SubsetSize({p, q}, members);
  }

  lemma AcceptedAtOnce(par: Params, p: PeerId, q: PeerId)
    requires ValidParams(par) && par.members == {p, q} && p != q
    ensures var s := Step(par, Step(par, Init(par), Publish(p, "m", 1, 0, ["x"])), Accept(Copy(q, "m"), 0));
      s.accepted == {Copy(q, "m")} && s.released == [Copy(q, "m")]
  {
  }

  lemma RunTwo(par: Params, a0: Action, a1: Action)
    requires ValidParams(par)
    ensures Run(par, [a0, a1]) == Step(par, Step(par, Init(par), a0), a1)
  {
    assert [a0, a1][..1] == [a0] && [a0][..0] == [];
    assert Run(par, []) == Init(par);
    assert Run(par, [a0]) == Step(par, Init(par), a0);
  }

  // ---- Exact promotion -------------------------------------------------------------

  /** A staged entry always carries a count. It is the number of nodes known to have the
      message, capped at the required number. */
  lemma StagedCount(par: Params, s: Net, p: PeerId, id: string)
    requires ValidParams(par) && Reachable(par, s)
    requires p in s.nodes && id in s.nodes[p].temp
    ensures Copy(p, id) in s.heard && Copy(p, id) !in s.released
    ensures s.nodes[p].temp[id].confirmations == Some(Tally(Required(par), |s.heard[Copy(p, id)]|))
    ensures forall k: u64 | par.config.Consistency().consensus == MinPeers(k) && k >= 2 ::
      s.nodes[p].temp[id].confirmations == Some(if |s.heard[Copy(p, id)]| < k then |s.heard[Copy(p, id)]| else k)
  {
    ReachableInv(par, s);
    assert StagedOk(par, s, p, id, s.nodes[p].temp[id]);
    HeardOne(s, Copy(p, id));
  }

  /** A confirmation makes a staged entry eligible exactly if it is at least the
      (required - 1)-th one delivered since the entry was staged; the node itself is the
      first of those that have it. */
  lemma EligibleExactly(par: Params, s: Net, f: Confirm)
    requires ValidParams(par) && Reachable(par, s)
    requires f in s.confirms && f.to in s.nodes && f.id in s.nodes[f.to].temp
    ensures Copy(f.to, f.id) in s.heard
    ensures f in Step(par, s, Hear(f)).moving <==>
      Required(par) >= 2 && |s.heard[Copy(f.to, f.id)]| >= Required(par) - 1
    ensures par.config.Consistency().consensus == All ==>
      (f in Step(par, s, Hear(f)).moving <==> |par.members| >= 3 && |s.heard[Copy(f.to, f.id)]| >= |par.members| - 2)
    ensures forall k: u64 | par.config.Consistency().consensus == MinPeers(k) ::
      f in Step(par, s, Hear(f)).moving <==> k >= 2 && |s.heard[Copy(f.to, f.id)]| >= k - 1
  {
    ReachableInv(par, s);
    var c := Copy(f.to, f.id);
    assert StagedOk(par, s, f.to, f.id, s.nodes[f.to].temp[f.id]);
    HeardOne(s, c);
    CountedTally(s.nodes[f.to].temp, f.id, Required(par), |s.heard[c]|);
    assert !DirectNet(par);
    NotDirectNotOne(par);
    assert f !in s.moving;
  }

  /** However handlers interleave, a node releases a message at most once. */
  lemma ReleasedOnce(par: Params, s: Net, i: nat, j: nat)
    requires ValidParams(par) && Reachable(par, s)
    requires i < j < |s.released|
    ensures s.released[i] != s.released[j]
  {
    ReachableInv(par, s);
  }

  // ---- Bounded staging -------------------------------------------------------------

  lemma StepKeepsStagingBounded(par: Params, s: Net, a: Action, p: PeerId)
    requires ValidParams(par) && p in s.nodes && |s.nodes[p].temp| <= MAX_CAPACITY
    ensures p in Step(par, s, a).nodes && |Step(par, s, a).nodes[p].temp| <= MAX_CAPACITY
  {
  }

  /** No run ever stages more entries at a node than the fixed capacity. */
  lemma {:induction false} StagingBounded(par: Params, actions: seq<Action>, p: PeerId)
    requires ValidParams(par) && p in par.members
    ensures p in Run(par, actions).nodes && |Run(par, actions).nodes[p].temp| <= MAX_CAPACITY
  {
    if actions != [] {
      StagingBounded(par, actions[..|actions| - 1], p);
      StepKeepsStagingBounded(par, Run(par, actions[..|actions| - 1]), actions[|actions| - 1], p);
    }
  }

  // ---- On the wire -----------------------------------------------------------------

  /** What the event loop makes of a text from a replica network. */
  function EntryRead(text: string, network: string, id: string, source: PeerId, now: u64): Option<Entry> {
    match Gossip.Decode(text)
    case Protocol(Replicated(timestamp, clock, n, data)) =>
      if n == network then Some(Entry(data, clock, timestamp, now, id, source, Some(1))) else None
    case _ => None
  }

  lemma ConfirmationTravels(network: string, id: string)
    requires Framing.Closed(network, Gossip.SEPARATOR) && AntiEntropy.ValidMessageId(id)
    ensures Gossip.Decode(Gossip.Framed(Gossip.Confirmation(network, id))) == Gossip.Protocol(Gossip.Confirmation(network, id))
  {
    Framing.PlainIsClosed(id, Gossip.SEPARATOR);
    Framing.SeparableCons(network, [id], Gossip.SEPARATOR);
    Gossip.OnePart(id, Gossip.SEPARATOR);
    assert Gossip.Payload(Gossip.Confirmation(network, id)) == [network] + [id];
    Gossip.ConfirmationDecodes(network, id);
  }

  /** The copies and confirmations of this model are what the texts of the protocol are read
      as, whatever the data is; the data itself is unchanged exactly if it is separable. */
  lemma TravelsAsText(network: string, m: Publication, id: string, now: u64)
    requires Framing.Closed(network, Gossip.SEPARATOR) && AntiEntropy.ValidMessageId(id)
    ensures EntryRead(Gossip.Framed(Gossip.Replicated(m.timestamp, m.clock, network, m.data)), network, id, m.publisher, now)
      == Some(Received(m, id, now))
    ensures Gossip.Decode(Gossip.Framed(Gossip.Confirmation(network, id))) == Gossip.Protocol(Gossip.Confirmation(network, id))
    ensures Received(m, id, now).data == m.data <==> m.data == [] || Framing.Separable(m.data, Gossip.SEPARATOR)
  {
    Gossip.ReplicatedArrives(m.timestamp, m.clock, network, m.data);
    ConfirmationTravels(network, id);
    Gossip.DataUnchanged(m.data);
  }
}
