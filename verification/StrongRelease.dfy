/**
 When a message becomes public under strong consistency. Whatever the interleaving, an
 accepted message is staged, released or given up for lack of room; a confirmation is in
 flight, counted or missed. Together these give the exact condition for a release.
 */
module StrongRelease {
  import opened U64
  import opened Entries
  import opened ReplicaBuffer
  import opened StrongNet

  predicate Staged(s: Net, c: Copy) {
    c.at in s.nodes && c.id in s.nodes[c.at].temp
  }

  /** An accepted message never vanishes without a trace. */
  ghost predicate FateInv(s: Net) {
    && (forall c | c in s.accepted :: Staged(s, c) || c in s.released || c in s.evicted)
    && (forall c | c in s.evicted :: c in s.accepted && !Staged(s, c) && c !in s.released)
  }

  ghost predicate HasHandler(s: Net, c: Copy) {
    exists f :: f in s.moving && f.to == c.at && f.id == c.id
  }

  /** A staged entry with all its confirmations is about to be released. */
  ghost predicate HandlerInv(par: Params, s: Net)
    requires ValidParams(par)
  {
    forall c | Staged(s, c) && c in s.heard && 2 <= Required(par) <= |s.heard[c]| :: HasHandler(s, c)
  }

  ghost predicate CountedIn(s: Net, f: Confirm) {
    Copy(f.to, f.id) in s.heard && f.from in s.heard[Copy(f.to, f.id)]
  }

  /** A missed confirmation was sent, has arrived and was not counted. */
  ghost predicate MissedInv(par: Params, s: Net) {
    forall f | f in s.missed ::
      && f.to in par.members && f.to != f.from && Copy(f.from, f.id) in s.accepted
      && f !in s.confirms && !CountedIn(s, f)
  }

  /** Every member is sent every message and every confirmation. */
  ghost predicate SentInv(par: Params, s: Net)
    requires ValidParams(par)
  {
    && (forall c: Copy | c.at in par.members && c.id in s.published && c.at != s.published[c.id].publisher ::
          c in s.copies || c in s.accepted)
    && (!DirectNet(par) ==>
          forall f: Confirm | f.to in par.members && f.to != f.from && Copy(f.from, f.id) in s.accepted ::
            f in s.confirms || f in s.missed || CountedIn(s, f))
  }

  ghost predicate FlowInv(par: Params, s: Net)
    requires ValidParams(par)
  {
    FateInv(s) && HandlerInv(par, s) && MissedInv(par, s) && SentInv(par, s)
  }

  lemma PublishKeepsFlow(par: Params, s: Net, p: PeerId, id: string, m: Publication)
    requires ValidParams(par) && Inv(par, s) && FlowInv(par, s)
    requires p in par.members && id !in s.published && m.publisher == p
    ensures FlowInv(par, DoPublish(par, s, p, id, m))
  {
    var t := DoPublish(par, s, p, id, m);
    assert forall c | Staged(t, c) :: Staged(s, c);
    assert forall c | HasHandler(s, c) :: HasHandler(t, c);
    assert forall f | CountedIn(s, f) :: CountedIn(t, f);
  }

  lemma ConsumeKeepsFlow(par: Params, s: Net, p: PeerId)
    requires ValidParams(par) && Inv(par, s) && FlowInv(par, s)
    requires p in s.nodes && p in s.consumed && s.nodes[p].queue != []
    ensures FlowInv(par, DoConsume(s, p))
  {
    var t := DoConsume(s, p);
    assert forall c :: Staged(t, c) <==> Staged(s, c);
    assert forall c | HasHandler(s, c) :: HasHandler(t, c);
    assert forall f | CountedIn(s, f) :: CountedIn(t, f);
  }

  /** After an acceptance a node has staged what it kept and the new message. */
  lemma AcceptStages(par: Params, s: Net, c: Copy, now: u64)
    requires ValidParams(par) && c.at in s.nodes && c.id in s.published
    ensures var t := DoAccept(par, s, c, now); forall d ::
      Staged(t, d) <==> (Staged(s, d) && d !in GivenUp(s, c.at)) || (d == c && !DirectNet(par))
  {
    WithRoomIn(s.nodes[c.at].temp);
  }

  /** What is given up was staged, and what is accepted was neither staged nor released. */
  lemma AcceptIsNew(par: Params, s: Net, c: Copy)
    requires ValidParams(par) && Inv(par, s) && c in s.copies && c.at in s.nodes
    ensures c !in s.accepted && c !in s.released && !Staged(s, c)
    ensures forall d | d in GivenUp(s, c.at) :: Staged(s, d) && d in s.accepted && d !in s.released
  {
    assert forall d | d in GivenUp(s, c.at) :: StagedOk(par, s, d.at, d.id, s.nodes[d.at].temp[d.id]);
  }

  lemma AcceptKeepsFate(par: Params, s: Net, c: Copy, now: u64)
    requires ValidParams(par) && Inv(par, s) && FateInv(s)
    requires c in s.copies && c.at in s.nodes && c.id in s.published
    ensures FateInv(DoAccept(par, s, c, now))
  {
    AcceptStages(par, s, c, now);
    AcceptIsNew(par, s, c);
    FateOfNew(s, DoAccept(par, s, c, now), c, DirectNet(par), GivenUp(s, c.at));
  }

  lemma FateOfNew(s: Net, t: Net, c: Copy, direct: bool, gone: set<Copy>)
    requires FateInv(s) && c !in s.accepted && c !in s.released
    requires forall d | d in gone :: Staged(s, d) && d in s.accepted && d !in s.released
    requires t.accepted == s.accepted + {c} && t.evicted == s.evicted + gone
    requires t.released == s.released + if direct then [c] else []
    requires forall d :: Staged(t, d) <==> (Staged(s, d) && d !in gone) || (d == c && !direct)
    ensures FateInv(t)
  {
  }

  /** A node that has just accepted a message has heard of itself only. */
  lemma AcceptKeepsHandlers(par: Params, s: Net, c: Copy, now: u64)
    requires ValidParams(par) && HandlerInv(par, s)
    requires c in s.copies && c.at in s.nodes && c.id in s.published
    requires forall d | Staged(s, d) :: d in s.heard && d != c
    ensures HandlerInv(par, DoAccept(par, s, c, now))
  {
    var t := DoAccept(par, s, c, now);
    AcceptStages(par, s, c, now);
    assert t.moving == s.moving && t.heard == s.heard[c := {c.at}];
    HandlersOfNew(par, s, t, c);
  }

  lemma HandlersOfNew(par: Params, s: Net, t: Net, c: Copy)
    requires ValidParams(par) && HandlerInv(par, s)
    requires forall d | Staged(t, d) && d != c :: Staged(s, d) && d in s.heard
    requires t.moving == s.moving && t.heard == s.heard[c := {c.at}]
    ensures HandlerInv(par, t)
  {
    assert |{c.at}| == 1;
    assert forall d | HasHandler(s, d) :: HasHandler(t, d);
  }

  lemma AcceptKeepsMissed(par: Params, s: Net, c: Copy, now: u64)
    requires ValidParams(par) && MissedInv(par, s)
    requires c !in s.accepted && c.at in s.nodes && c.id in s.published
    ensures MissedInv(par, DoAccept(par, s, c, now))
  {
    var t := DoAccept(par, s, c, now);
    assert t.accepted == s.accepted + {c} && t.missed == s.missed && t.heard == s.heard[c := {c.at}];
    assert forall f | f in t.confirms && f !in s.confirms :: f.from == c.at && f.id == c.id;
    MissedWithNew(par, s, t, c);
  }

  lemma MissedWithNew(par: Params, s: Net, t: Net, c: Copy)
    requires MissedInv(par, s) && c !in s.accepted
    requires t.accepted == s.accepted + {c} && t.missed == s.missed && t.heard == s.heard[c := {c.at}]
    requires forall f | f in t.confirms && f !in s.confirms :: f.from == c.at && f.id == c.id
    ensures MissedInv(par, t)
  {
  }

  lemma AcceptKeepsSent(par: Params, s: Net, c: Copy, now: u64)
    requires ValidParams(par) && SentInv(par, s)
    requires c in s.copies && c !in s.heard && c.at in s.nodes && c.id in s.published
    ensures SentInv(par, DoAccept(par, s, c, now))
  {
    var t := DoAccept(par, s, c, now);
    assert forall f | CountedIn(s, f) :: CountedIn(t, f);
  }

  lemma HearKeepsFate(par: Params, s: Net, f: Confirm)
    requires ValidParams(par) && Inv(par, s) && FateInv(s)
    requires f in s.confirms && f.to in s.nodes
    ensures FateInv(DoHear(par, s, f))
  {
    var t := DoHear(par, s, f);
    assert forall c :: Staged(t, c) <==> Staged(s, c);
  }

  /** The confirmation that completes the count starts the handler. */
  lemma HearStartsHandler(par: Params, s: Net, f: Confirm)
    requires ValidParams(par) && TempInv(par, s) && HeardInv(s) && ConfirmsInv(par, s)
    requires f in s.confirms && f.to in s.nodes && f.id in s.nodes[f.to].temp
    ensures var t, c := DoHear(par, s, f), Copy(f.to, f.id);
      c in t.heard && (2 <= Required(par) <= |t.heard[c]| ==> f in t.moving)
  {
    var c := Copy(f.to, f.id);
    assert StagedOk(par, s, f.to, f.id, s.nodes[f.to].temp[f.id]);
    HearGrows(par, s, f);
    HeardOne(s, c);
    CountedTally(s.nodes[f.to].temp, f.id, Required(par), |s.heard[c]|);
  }

  lemma HearKeepsHandlers(par: Params, s: Net, f: Confirm)
    requires ValidParams(par) && Inv(par, s) && HandlerInv(par, s)
    requires f in s.confirms && f.to in s.nodes
    ensures HandlerInv(par, DoHear(par, s, f))
  {
    var t := DoHear(par, s, f);
    forall c | Staged(t, c) && c in t.heard && 2 <= Required(par) <= |t.heard[c]| ensures HasHandler(t, c) {
      if c == Copy(f.to, f.id) {
        HearStartsHandler(par, s, f);
      } else {
        assert Staged(s, c) && HasHandler(s, c);
      }
    }
  }

  lemma HearKeepsMissed(par: Params, s: Net, f: Confirm)
    requires ValidParams(par) && Inv(par, s) && MissedInv(par, s)
    requires f in s.confirms && f.to in s.nodes
    ensures MissedInv(par, DoHear(par, s, f))
  {
  }

  lemma HearKeepsSent(par: Params, s: Net, f: Confirm)
    requires ValidParams(par) && Inv(par, s) && SentInv(par, s)
    requires f in s.confirms && f.to in s.nodes
    ensures SentInv(par, DoHear(par, s, f))
  {
    var t := DoHear(par, s, f);
    assert forall g | CountedIn(s, g) :: CountedIn(t, g);
    if f !in t.missed {
      assert StagedOk(par, s, f.to, f.id, s.nodes[f.to].temp[f.id]);
      assert CountedIn(t, f);
    }
  }

  lemma MoveStages(par: Params, s: Net, f: Confirm, now: u64)
    requires ValidParams(par) && f.to in s.nodes
    ensures var t := DoMove(par, s, f, now); forall d :: Staged(t, d) <==> Staged(s, d) && d != Copy(f.to, f.id)
  {
  }

  lemma MoveKeepsFate(par: Params, s: Net, f: Confirm, now: u64)
    requires ValidParams(par) && FateInv(s) && f.to in s.nodes
    ensures FateInv(DoMove(par, s, f, now))
  {
    MoveStages(par, s, f, now);
  }

  lemma MoveKeepsHandlers(par: Params, s: Net, f: Confirm, now: u64)
    requires ValidParams(par) && HandlerInv(par, s) && f.to in s.nodes
    ensures HandlerInv(par, DoMove(par, s, f, now))
  {
    var t := DoMove(par, s, f, now);
    MoveStages(par, s, f, now);
    forall d | Staged(t, d) && HasHandler(s, d) ensures HasHandler(t, d) {
      var g :| g in s.moving && g.to == d.at && g.id == d.id;
      assert g in t.moving;
    }
  }

  lemma MoveKeepsConfirms(par: Params, s: Net, f: Confirm, now: u64)
    requires ValidParams(par) && MissedInv(par, s) && SentInv(par, s) && f.to in s.nodes
    ensures MissedInv(par, DoMove(par, s, f, now)) && SentInv(par, DoMove(par, s, f, now))
  {
    var t := DoMove(par, s, f, now);
    assert forall g :: CountedIn(t, g) <==> CountedIn(s, g);
  }

  lemma StepKeepsFlow(par: Params, s: Net, a: Action)
    requires ValidParams(par) && Inv(par, s) && FlowInv(par, s)
    ensures FlowInv(par, Step(par, s, a))
  {
    if Enabled(par, s, a) {
      match a
      case Publish(p, id, clock, timestamp, data) => PublishKeepsFlow(par, s, p, id, Publication(p, clock, timestamp, data));
      case Accept(c, now) =>
        AcceptKeepsFate(par, s, c, now);
        AcceptIsNew(par, s, c);
        assert forall d | Staged(s, d) :: StagedOk(par, s, d.at, d.id, s.nodes[d.at].temp[d.id]);
        AcceptKeepsHandlers(par, s, c, now);
        AcceptKeepsMissed(par, s, c, now);
        AcceptKeepsSent(par, s, c, now);
      case Hear(f) =>
        HearKeepsFate(par, s, f);
        HearKeepsHandlers(par, s, f);
        HearKeepsMissed(par, s, f);
        HearKeepsSent(par, s, f);
      case Move(f, now) =>
        MoveKeepsFate(par, s, f, now);
        MoveKeepsHandlers(par, s, f, now);
        MoveKeepsConfirms(par, s, f, now);
      case Consume(p) => ConsumeKeepsFlow(par, s, p);
    }
  }

  lemma {:induction false} RunKeepsFlow(par: Params, actions: seq<Action>)
    requires ValidParams(par)
    ensures Inv(par, Run(par, actions)) && FlowInv(par, Run(par, actions))
  {
    RunKeepsInv(par, actions);
    if actions != [] {
      var before := actions[..|actions| - 1];
      RunKeepsFlow(par, before);
      StepKeepsFlow(par, Run(par, before), actions[|actions| - 1]);
    }
  }

  lemma ReachableFlow(par: Params, s: Net)
    requires ValidParams(par) && Reachable(par, s)
    ensures Inv(par, s) && FlowInv(par, s)
  {
    var actions :| s == Run(par, actions);
    RunKeepsFlow(par, actions);
  }

  // ---- When a message is released --------------------------------------------------

  /** Unless its handler is on its way, a message that a node accepted is public or was consumed
      there exactly if it was not given up and enough confirmations came while it was staged. */
  lemma ReleasedExactly(par: Params, s: Net, c: Copy)
    requires ValidParams(par) && Reachable(par, s) && !DirectNet(par)
    requires c in s.accepted && !HasHandler(s, c)
    ensures c in s.heard
    ensures c in s.released <==> c !in s.evicted && 2 <= Required(par) <= |s.heard[c]|
  {
    ReachableFlow(par, s);
  }

  /** All messages and confirmations have arrived, and no handler is on its way. */
  ghost predicate Quiet(s: Net) {
    s.copies == {} && s.confirms == {} && s.moving == {}
  }

  /** A copy that the network delivers at some time. */
  ghost predicate Addressed(par: Params, s: Net, c: Copy) {
    c.at in par.members && c.id in s.published && c.at != s.published[c.id].publisher
  }

  /** The nodes, itself included, whose confirmation a receiver did not miss. */
  ghost function Voters(par: Params, s: Net, c: Copy): set<PeerId>
    requires c.id in s.published
  {
    set r | r in par.members && r != s.published[c.id].publisher && Confirm(c.at, r, c.id) !in s.missed
  }

  lemma QuietHeard(par: Params, s: Net, c: Copy)
    requires ValidParams(par) && Inv(par, s) && FlowInv(par, s) && !DirectNet(par) && Quiet(s) && Addressed(par, s, c)
    ensures c in s.accepted && c in s.heard && s.heard[c] == Voters(par, s, c)
  {
    assert c in s.accepted;
    forall r ensures r in s.heard[c] <==> r in Voters(par, s, c) {
      var f := Confirm(c.at, r, c.id);
      assert f in s.missed ==> !CountedIn(s, f);
      if r in par.members && r != s.published[c.id].publisher {
        assert Copy(r, c.id) in s.accepted;
      }
    }
  }

  /** In a quiet network the condition is one on the confirmations that arrived when their
      message was not staged. */
  lemma QuietReleasedExactly(par: Params, s: Net, c: Copy)
    requires ValidParams(par) && Reachable(par, s) && !DirectNet(par) && Quiet(s) && Addressed(par, s, c)
    ensures c in s.released <==> c !in s.evicted && 2 <= Required(par) <= |Voters(par, s, c)|
  {
    ReachableFlow(par, s);
    QuietHeard(par, s, c);
    ReleasedExactly(par, s, c);
  }

  /** A node has missed no confirmation of the message. */
  ghost predicate Unmissed(s: Net, c: Copy) {
    forall f | f in s.missed :: !(f.to == c.at && f.id == c.id)
  }

  /** Nobody misses a vote exactly if no confirmation was missed. */
  lemma AllVoters(par: Params, s: Net, c: Copy)
    requires ValidParams(par) && Inv(par, s) && FlowInv(par, s) && Addressed(par, s, c)
    ensures Voters(par, s, c) <= par.members - {s.published[c.id].publisher}
    ensures Voters(par, s, c) == par.members - {s.published[c.id].publisher} <==> Unmissed(s, c)
  {
    if f :| f in s.missed && f.to == c.at && f.id == c.id {
      assert Copy(f.from, f.id) in s.accepted;
      assert f.from in par.members - {s.published[c.id].publisher} && f.from !in Voters(par, s, c);
    }
  }

  /** Under `All`, a message becomes public in a quiet network exactly if the node missed none
      of its confirmations and did not give it up. */
  lemma AllReleasedExactly(par: Params, s: Net, c: Copy)
    requires ValidParams(par) && Reachable(par, s) && Quiet(s) && Addressed(par, s, c)
    requires par.config.Consistency().consensus == All && !DirectNet(par)
    ensures c in s.released <==> c !in s.evicted && Unmissed(s, c)
  {
    ReachableFlow(par, s);
    QuietReleasedExactly(par, s, c);
    AllVoters(par, s, c);
    var others := par.members - {s.published[c.id].publisher};
    assert |others| == Required(par) && c.at in others;
    NotDirectNotOne(par);
    SubsetSize({c.at}, others);
    SubsetSize(Voters(par, s, c), others);
  }

  // ---- Room ------------------------------------------------------------------------

  lemma AcceptHasRoom(par: Params, s: Net, c: Copy)
    requires ValidParams(par) && Inv(par, s) && c in s.copies && c.at in s.nodes
    requires |s.published| <= MAX_CAPACITY
    ensures GivenUp(s, c.at) == {}
  {
    var temp := s.nodes[c.at].temp;
    AcceptIsNew(par, s, c);
    forall id | id in temp ensures id in s.published.Keys - {c.id} {
      assert StagedOk(par, s, c.at, id, temp[id]);
    }
    SubsetSize(temp.Keys, s.published.Keys - {c.id});
    assert |temp| == |temp.Keys| && |s.published| == |s.published.Keys|;
  }

  /** Nothing is given up before more messages were published than a node can stage. */
  lemma {:induction false} RoomForAll(par: Params, actions: seq<Action>)
    requires ValidParams(par)
    ensures Run(par, actions).evicted == {} || |Run(par, actions).published| > MAX_CAPACITY
  {
    if actions != [] {
      var before, a := actions[..|actions| - 1], actions[|actions| - 1];
      RoomForAll(par, before);
      RunKeepsInv(par, before);
      var s := Run(par, before);
      PublishedGrows(par, s, a);
      if |s.published| <= MAX_CAPACITY && a.Accept? && Enabled(par, s, a) {
        AcceptHasRoom(par, s, a.copy);
      }
    }
  }

  lemma PublishedGrows(par: Params, s: Net, a: Action)
    requires ValidParams(par)
    ensures |Step(par, s, a).published| >= |s.published|
    ensures !a.Publish? ==> Step(par, s, a).published == s.published
    ensures !a.Accept? ==> Step(par, s, a).evicted == s.evicted
  {
  }

  lemma EnabledAccept(par: Params, s: Net, c: Copy, now: u64)
    requires ValidParams(par) && Inv(par, s) && c in s.copies
    ensures c.at in s.nodes && c.id in s.published && Step(par, s, Accept(c, now)) == DoAccept(par, s, c, now)
  {
  }

  lemma EvictedBy(par: Params, s: Net, c: Copy, now: u64)
    requires ValidParams(par) && c.at in s.nodes && c.id in s.published
    ensures DoAccept(par, s, c, now).evicted == s.evicted + GivenUp(s, c.at)
  {
  }

  lemma NothingGivenUp(s: Net, p: PeerId)
    requires p in s.nodes && |s.nodes[p].temp| < 150
    ensures GivenUp(s, p) == {}
  {
    WithRoomExactly(s.nodes[p].temp);
  }

  lemma RoomKeepsAll(par: Params, s: Net, c: Copy, now: u64)
    requires ValidParams(par) && c.at in s.nodes && c.id in s.published && |s.nodes[c.at].temp| < 150
    ensures var t := DoAccept(par, s, c, now);
      t.evicted == s.evicted && forall d | Staged(s, d) :: Staged(t, d)
  {
    AcceptStages(par, s, c, now);
    NothingGivenUp(s, c.at);
    EvictedBy(par, s, c, now);
  }

  /** Below the fixed capacity an acceptance gives up nothing. */
  lemma AcceptKeepsAll(par: Params, s: Net, c: Copy, now: u64)
    requires ValidParams(par) && Reachable(par, s) && c in s.copies
    requires c.at in s.nodes && |s.nodes[c.at].temp| < 150
    ensures var t := Step(par, s, Accept(c, now));
      t.evicted == s.evicted && forall d | Staged(s, d) :: Staged(t, d)
  {
    ReachableInv(par, s);
    EnabledAccept(par, s, c, now);
    RoomKeepsAll(par, s, c, now);
  }

  /** An acceptance at a full node gives up exactly one entry, the one with the smallest id; all
      others stay staged. */
  lemma AcceptGivesUpOne(par: Params, s: Net, c: Copy, now: u64) returns (k: string)
    requires ValidParams(par) && Reachable(par, s) && c in s.copies
    requires c.at in s.nodes && |s.nodes[c.at].temp| >= 150
    ensures k in s.nodes[c.at].temp && forall l | l in s.nodes[c.at].temp && l != k :: Precedes(k, l)
    ensures var t := Step(par, s, Accept(c, now));
      && t.evicted == s.evicted + {Copy(c.at, k)} && !Staged(t, Copy(c.at, k))
      && forall d | Staged(s, d) && d != Copy(c.at, k) :: Staged(t, d)
  {
    ReachableInv(par, s);
    EnabledAccept(par, s, c, now);
    AcceptIsNew(par, s, c);
    AcceptStages(par, s, c, now);
    k := OnlyGivenUp(s, c.at);
  }

  lemma OnlyGivenUp(s: Net, p: PeerId) returns (k: string)
    requires p in s.nodes && |s.nodes[p].temp| >= 150
    ensures k in s.nodes[p].temp && forall l | l in s.nodes[p].temp && l != k :: Precedes(k, l)
    ensures GivenUp(s, p) == {Copy(p, k)}
  {
    var temp := s.nodes[p].temp;
    WithRoomExactly(temp);
    k :| k in temp && (forall l | l in temp && l != k :: Precedes(k, l)) && WithRoom(temp).Keys == temp.Keys - {k};
    assert forall id | id in temp :: id in WithRoom(temp) <==> id != k;
  }

  /** No step loses more than one entry for lack of room. */
  lemma StepGivesUpOne(par: Params, s: Net, a: Action)
    requires ValidParams(par) && Reachable(par, s)
    ensures |Step(par, s, a).evicted| <= |s.evicted| + 1
    ensures !a.Accept? ==> Step(par, s, a).evicted == s.evicted
  {
    PublishedGrows(par, s, a);
    if a.Accept? && Enabled(par, s, a) {
      if |s.nodes[a.copy.at].temp| < 150 {
        AcceptKeepsAll(par, s, a.copy, a.now);
      } else {
        var k := AcceptGivesUpOne(par, s, a.copy, a.now);
      }
    }
  }

  // ---- What cannot be made good ----------------------------------------------------

  lemma HistoryGrows(par: Params, s: Net, a: Action)
    requires ValidParams(par)
    ensures s.missed <= Step(par, s, a).missed && s.evicted <= Step(par, s, a).evicted
    ensures forall id | id in s.published :: id in Step(par, s, a).published && Step(par, s, a).published[id] == s.published[id]
  {
  }

  lemma RunAppend(par: Params, actions: seq<Action>, a: Action)
    requires ValidParams(par)
    ensures Run(par, actions + [a]) == Step(par, Run(par, actions), a)
  {
  }

  lemma {:induction false} HistoryStays(par: Params, before: seq<Action>, after: seq<Action>)
    requires ValidParams(par)
    ensures Run(par, before).missed <= Run(par, before + after).missed
    ensures Run(par, before).evicted <= Run(par, before + after).evicted
    ensures forall id | id in Run(par, before).published ::
      id in Run(par, before + after).published && Run(par, before + after).published[id] == Run(par, before).published[id]
    decreases |after|
  {
    if after == [] {
      assert before + after == before;
    } else {
      var k := |after| - 1;
      HistoryStays(par, before, after[..k]);
      RunAppend(par, before + after[..k], after[k]);
      HistoryGrows(par, Run(par, before + after[..k]), after[k]);
      assert before + after == before + after[..k] + [after[k]];
    }
  }

  /** Under `All`, a released message has missed no confirmation. */
  lemma ReleasedUnmissed(par: Params, s: Net, c: Copy)
    requires ValidParams(par) && Reachable(par, s) && c in s.released
    requires par.config.Consistency().consensus == All && !DirectNet(par)
    ensures Unmissed(s, c)
  {
    Agreement(par, s, c);
    ReachableFlow(par, s);
    forall f | f in s.missed ensures !(f.to == c.at && f.id == c.id) {
      assert Copy(f.from, f.id) in s.accepted && !CountedIn(s, f);
    }
  }

  /** Under `All`, one missed confirmation keeps the message from ever being released at that
      node, whatever happens afterwards. */
  lemma MissedBlocks(par: Params, before: seq<Action>, f: Confirm, after: seq<Action>)
    requires ValidParams(par) && par.config.Consistency().consensus == All && !DirectNet(par)
    requires f in Run(par, before).missed
    ensures Copy(f.to, f.id) !in Run(par, before + after).released
  {
    HistoryStays(par, before, after);
    if Copy(f.to, f.id) in Run(par, before + after).released {
      ReleasedUnmissed(par, Run(par, before + after), Copy(f.to, f.id));
    }
  }

  /** A message that was given up is never released, however many confirmations it has. */
  lemma EvictedForever(par: Params, before: seq<Action>, c: Copy, after: seq<Action>)
    requires ValidParams(par) && c in Run(par, before).evicted
    ensures c !in Run(par, before + after).released
  {
    HistoryStays(par, before, after);
    RunKeepsFlow(par, before + after);
  }

  /** Under `All`, a confirmation that arrives while the message is not staged keeps the
      message from ever being released at that node. */
  lemma EarlyConfirmationBlocks(par: Params, before: seq<Action>, f: Confirm, after: seq<Action>)
    requires ValidParams(par) && par.config.Consistency().consensus == All && !DirectNet(par)
    requires var s := Run(par, before); f in s.confirms && f.to in s.nodes && f.id !in s.nodes[f.to].temp
    ensures Copy(f.to, f.id) !in Run(par, before + [Hear(f)] + after).released
  {
    RunAppend(par, before, Hear(f));
    assert f in Run(par, before + [Hear(f)]).missed;
    MissedBlocks(par, before + [Hear(f)], f, after);
  }

  /** Three members suffice for that: the confirmation of the second can overtake the message
      on its way to the third. */
  lemma EarlyConfirmationArises(par: Params, p: PeerId, q: PeerId, r: PeerId) returns (before: seq<Action>)
    requires ValidParams(par) && !DirectNet(par)
    requires p in par.members && q in par.members && r in par.members && p != q && q != r && p != r
    ensures var s, f := Run(par, before), Confirm(r, q, "m");
      && f in s.confirms && f.to in s.nodes && f.id !in s.nodes[f.to].temp && Addressed(par, s, Copy(r, "m"))
  {
    var a0, a1 := Publish(p, "m", 1, 0, ["x"]), Accept(Copy(q, "m"), 0);
    before := [a0, a1];
    RunTwo(par, a0, a1);
    var s0 := Step(par, Init(par), a0);
    assert s0 == DoPublish(par, Init(par), p, "m", Publication(p, 1, 0, ["x"]));
    assert Copy(q, "m") in s0.copies;
    assert Step(par, s0, a1) == DoAccept(par, s0, Copy(q, "m"), 0);
  }

  // ---- What can still be released --------------------------------------------------

  lemma Regroup(before: seq<Action>, more: seq<Action>, rest: seq<Action>)
    ensures before + (more + rest) == before + more + rest
  {
  }

  lemma RunAccept(par: Params, before: seq<Action>, c: Copy)
    requires ValidParams(par) && c in Run(par, before).copies
    ensures c.at in Run(par, before).nodes && c.id in Run(par, before).published
    ensures Run(par, before + [Accept(c, 0)]) == DoAccept(par, Run(par, before), c, 0)
  {
    RunKeepsInv(par, before);
    RunAppend(par, before, Accept(c, 0));
  }

  lemma RunHear(par: Params, before: seq<Action>, f: Confirm)
    requires ValidParams(par) && f in Run(par, before).confirms
    ensures f.to in Run(par, before).nodes
    ensures Run(par, before + [Hear(f)]) == DoHear(par, Run(par, before), f)
  {
    RunKeepsInv(par, before);
    RunAppend(par, before, Hear(f));
  }

  lemma RunMove(par: Params, before: seq<Action>, f: Confirm)
    requires ValidParams(par) && f in Run(par, before).moving
    ensures f.to in Run(par, before).nodes
    ensures Run(par, before + [Move(f, 0)]) == DoMove(par, Run(par, before), f, 0)
  {
    RunKeepsInv(par, before);
    RunAppend(par, before, Move(f, 0));
    assert Copy(f.to, f.id) in Run(par, before).accepted;
  }

  /** Every situation can come to rest without further publications. */
  lemma {:induction false} Settles(par: Params, before: seq<Action>) returns (more: seq<Action>)
    requires ValidParams(par)
    ensures Quiet(Run(par, before + more)) && Run(par, before + more).published == Run(par, before).published
    decreases |Run(par, before).copies|, |Run(par, before).confirms|, |Run(par, before).moving|
  {
    var a: Action;
    if c :| c in Run(par, before).copies {
      RunAccept(par, before, c);
      a := Accept(c, 0);
    } else if f :| f in Run(par, before).confirms {
      RunHear(par, before, f);
      a := Hear(f);
    } else if f :| f in Run(par, before).moving {
      RunMove(par, before, f);
      a := Move(f, 0);
    } else {
      assert before + [] == before;
      return [];
    }
    var rest := Settles(par, before + [a]);
    Regroup(before, [a], rest);
    more := [a] + rest;
  }

  /** Enough nodes may still confirm the message. */
  ghost predicate Hopeful(par: Params, s: Net, c: Copy)
    requires ValidParams(par)
  {
    !DirectNet(par) && Addressed(par, s, c) && 2 <= Required(par) <= |Voters(par, s, c)|
  }

  lemma OwnAccept(par: Params, before: seq<Action>, c: Copy)
    requires ValidParams(par) && Hopeful(par, Run(par, before), c) && c in Run(par, before).copies
    ensures var t := Run(par, before + [Accept(c, 0)]); Hopeful(par, t, c) && Staged(t, c)
  {
    RunAccept(par, before, c);
    AcceptStages(par, Run(par, before), c, 0);
  }

  lemma AlreadyStaged(par: Params, before: seq<Action>, c: Copy)
    requires ValidParams(par) && Addressed(par, Run(par, before), c)
    requires var s := Run(par, before); c !in s.copies && c !in s.released && c !in s.evicted
    ensures Staged(Run(par, before), c)
  {
    RunKeepsFlow(par, before);
  }

  /** A message that was neither released nor given up waits in the staging area, or can be
      brought there. */
  lemma BringToStage(par: Params, before: seq<Action>, c: Copy) returns (more: seq<Action>)
    requires ValidParams(par) && Hopeful(par, Run(par, before), c)
    requires c !in Run(par, before).released && c !in Run(par, before).evicted
    ensures Hopeful(par, Run(par, before + more), c) && Staged(Run(par, before + more), c)
  {
    if c in Run(par, before).copies {
      OwnAccept(par, before, c);
      more := [Accept(c, 0)];
    } else {
      AlreadyStaged(par, before, c);
      more := [];
      assert before + [] == before;
    }
  }

  /** Accepting at another node leaves the message where it is. */
  lemma OtherAccept(par: Params, before: seq<Action>, d: Copy, c: Copy)
    requires ValidParams(par) && Hopeful(par, Run(par, before), c) && Staged(Run(par, before), c)
    requires d in Run(par, before).copies && d.at != c.at
    ensures var s, t := Run(par, before), Run(par, before + [Accept(d, 0)]);
      Hopeful(par, t, c) && Staged(t, c) && t.copies == s.copies - {d}
  {
    RunAccept(par, before, d);
  }

  ghost predicate NoCopies(s: Net, id: string) {
    forall d | d in s.copies :: d.id != id
  }

  lemma StagedIsAccepted(par: Params, before: seq<Action>, c: Copy)
    requires ValidParams(par) && Staged(Run(par, before), c)
    ensures c !in Run(par, before).copies
  {
    RunKeepsInv(par, before);
    var s := Run(par, before);
    assert StagedOk(par, s, c.at, c.id, s.nodes[c.at].temp[c.id]);
  }

  /** All other nodes can accept the message before anything else happens. */
  lemma {:induction false} SpreadFirst(par: Params, before: seq<Action>, c: Copy) returns (more: seq<Action>)
    requires ValidParams(par) && Hopeful(par, Run(par, before), c) && Staged(Run(par, before), c)
    ensures var t := Run(par, before + more); Hopeful(par, t, c) && Staged(t, c) && NoCopies(t, c.id)
    decreases |Run(par, before).copies|
  {
    if d :| d in Run(par, before).copies && d.id == c.id {
      StagedIsAccepted(par, before, c);
      OtherAccept(par, before, d, c);
      var rest := SpreadFirst(par, before + [Accept(d, 0)], c);
      Regroup(before, [Accept(d, 0)], rest);
      more := [Accept(d, 0)] + rest;
    } else {
      more := [];
      assert before + [] == before;
    }
  }

  /** A confirmation that arrives now is not missed. */
  lemma OwnHear(par: Params, before: seq<Action>, f: Confirm, c: Copy)
    requires ValidParams(par) && Hopeful(par, Run(par, before), c) && Staged(Run(par, before), c)
    requires f in Run(par, before).confirms && f.to == c.at && f.id == c.id
    ensures var s, t := Run(par, before), Run(par, before + [Hear(f)]);
      Hopeful(par, t, c) && Staged(t, c) && t.copies == s.copies && t.confirms == s.confirms - {f}
  {
    RunHear(par, before, f);
    HearVotes(par, Run(par, before), f, c);
  }

  ghost predicate NoConfirms(s: Net, c: Copy) {
    forall f | f in s.confirms :: !(f.to == c.at && f.id == c.id)
  }

  lemma {:induction false} HearThen(par: Params, before: seq<Action>, c: Copy) returns (more: seq<Action>)
    requires ValidParams(par) && Hopeful(par, Run(par, before), c) && Staged(Run(par, before), c)
    requires NoCopies(Run(par, before), c.id)
    ensures var t := Run(par, before + more); Hopeful(par, t, c) && Staged(t, c) && NoCopies(t, c.id) && NoConfirms(t, c)
    decreases |Run(par, before).confirms|
  {
    if f :| f in Run(par, before).confirms && f.to == c.at && f.id == c.id {
      OwnHear(par, before, f, c);
      var rest := HearThen(par, before + [Hear(f)], c);
      Regroup(before, [Hear(f)], rest);
      more := [Hear(f)] + rest;
    } else {
      more := [];
      assert before + [] == before;
    }
  }

  /** Then every voter has been heard of, and the handler is on its way. */
  lemma AllHeard(par: Params, s: Net, c: Copy)
    requires ValidParams(par) && Inv(par, s) && FlowInv(par, s) && Hopeful(par, s, c) && Staged(s, c)
    requires NoCopies(s, c.id) && NoConfirms(s, c)
    ensures HasHandler(s, c)
  {
    assert StagedOk(par, s, c.at, c.id, s.nodes[c.at].temp[c.id]);
    forall r | r in Voters(par, s, c) ensures r in s.heard[c] {
      var f := Confirm(c.at, r, c.id);
      assert Copy(r, c.id) in s.copies || Copy(r, c.id) in s.accepted;
      assert r != c.at ==> f in s.confirms || f in s.missed || CountedIn(s, f);
    }
    SubsetSize(Voters(par, s, c), s.heard[c]);
  }

  lemma MoveReleases(par: Params, before: seq<Action>, c: Copy) returns (more: seq<Action>)
    requires ValidParams(par) && Staged(Run(par, before), c) && HasHandler(Run(par, before), c)
    ensures c in Run(par, before + more).released
  {
    var f :| f in Run(par, before).moving && f.to == c.at && f.id == c.id;
    RunMove(par, before, f);
    more := [Move(f, 0)];
  }

  lemma ReleaseFromConfirms(par: Params, before: seq<Action>, c: Copy) returns (more: seq<Action>)
    requires ValidParams(par) && Hopeful(par, Run(par, before), c) && Staged(Run(par, before), c)
    requires NoCopies(Run(par, before), c.id)
    ensures c in Run(par, before + more).released
  {
    var hearing := HearThen(par, before, c);
    RunKeepsFlow(par, before + hearing);
    AllHeard(par, Run(par, before + hearing), c);
    var rest := MoveReleases(par, before + hearing, c);
    Regroup(before, hearing, rest);
    more := hearing + rest;
  }

  lemma ReleaseFromStage(par: Params, before: seq<Action>, c: Copy) returns (more: seq<Action>)
    requires ValidParams(par) && Hopeful(par, Run(par, before), c) && Staged(Run(par, before), c)
    ensures c in Run(par, before + more).released
  {
    var spreading := SpreadFirst(par, before, c);
    var rest := ReleaseFromConfirms(par, before + spreading, c);
    Regroup(before, spreading, rest);
    more := spreading + rest;
  }

  /** Staging, spreading, hearing and moving lead to the release. */
  lemma ReleaseFollows(par: Params, before: seq<Action>, c: Copy) returns (more: seq<Action>)
    requires ValidParams(par) && Hopeful(par, Run(par, before), c) && c !in Run(par, before).evicted
    ensures c in Run(par, before + more).released
  {
    if c in Run(par, before).released {
      more := [];
      assert before + [] == before;
    } else {
      var staging := BringToStage(par, before, c);
      var rest := ReleaseFromStage(par, before + staging, c);
      Regroup(before, staging, rest);
      more := staging + rest;
    }
  }

  /** Whoever was heard of is a voter. */
  lemma HeardVote(par: Params, s: Net, c: Copy)
    requires ValidParams(par) && Inv(par, s) && FlowInv(par, s) && c in s.heard
    ensures c.id in s.published && s.heard[c] <= Voters(par, s, c) && |s.heard[c]| <= |Voters(par, s, c)|
  {
    forall r | r in s.heard[c] ensures r in Voters(par, s, c) {
      assert CountedIn(s, Confirm(c.at, r, c.id)) && Copy(r, c.id) in s.accepted;
    }
    SubsetSize(s.heard[c], Voters(par, s, c));
  }

  lemma HearVotes(par: Params, s: Net, f: Confirm, c: Copy)
    requires ValidParams(par) && f.to in s.nodes && c.id in s.published
    ensures var t := DoHear(par, s, f);
      c.id in t.published && Voters(par, t, c) ==
        if f.to == c.at && f.id == c.id && !Staged(s, c) then Voters(par, s, c) - {f.from} else Voters(par, s, c)
  {
  }

  ghost predicate CanBeReleased(par: Params, before: seq<Action>, c: Copy)
    requires ValidParams(par)
  {
    exists after :: c in Run(par, before + after).released
  }

  /** After every run, some continuation has the message released at the node exactly if the
      node has not given it up and has not missed too many of its confirmations. */
  lemma ReleasableExactly(par: Params, before: seq<Action>, c: Copy)
    requires ValidParams(par) && !DirectNet(par) && Addressed(par, Run(par, before), c)
    ensures CanBeReleased(par, before, c) <==>
      c !in Run(par, before).evicted && 2 <= Required(par) <= |Voters(par, Run(par, before), c)|
  {
    var s := Run(par, before);
    if c !in s.evicted && 2 <= Required(par) <= |Voters(par, s, c)| {
      var more := ReleaseFollows(par, before, c);
    } else {
      forall after ensures c !in Run(par, before + after).released {
        ReleasedNeedsVoters(par, before, c, after);
        if c in s.evicted {
          EvictedForever(par, before, c, after);
        }
      }
    }
  }

  lemma ReleasedNeedsVoters(par: Params, before: seq<Action>, c: Copy, after: seq<Action>)
    requires ValidParams(par) && !DirectNet(par) && Addressed(par, Run(par, before), c)
    ensures c in Run(par, before + after).released ==> 2 <= Required(par) <= |Voters(par, Run(par, before), c)|
  {
    var s, t := Run(par, before), Run(par, before + after);
    HistoryStays(par, before, after);
    RunKeepsFlow(par, before + after);
    if c in t.released {
      HeardVote(par, t, c);
      SubsetSize(Voters(par, t, c), Voters(par, s, c));
    }
  }

  // ---- Confirmed and lost ----------------------------------------------------------

  /** Message ids of growing length. */
  function Mono(k: nat): (id: string)
    ensures |id| == k + 1
  {
    if k == 0 then "m" else "m" + Mono(k - 1)
  }

  lemma {:induction false} MonoLess(j: nat, k: nat)
    requires j < k
    ensures TextLess(Mono(j), Mono(k))
  {
    if j == 0 {
      assert Mono(0)[1..] == "" && Mono(k)[1..] == Mono(k - 1);
    } else {
      MonoLess(j - 1, k - 1);
      assert Mono(j)[1..] == Mono(j - 1) && Mono(k)[1..] == Mono(k - 1);
    }
  }

  function MonoIds(n: nat): set<string> {
    set j: nat | j < n :: Mono(j)
  }

  lemma {:induction false} MonoCount(n: nat)
    ensures |MonoIds(n)| == n && Mono(n) !in MonoIds(n) && MonoIds(n + 1) == MonoIds(n) + {Mono(n)}
  {
    assert forall j: nat | j < n :: |Mono(j)| < |Mono(n)|;
    if n == 0 {
      assert MonoIds(0) == {};
    } else {
      MonoCount(n - 1);
    }
  }

  /** `p` publishes a message and `q` accepts it, `n` times. */
  function Filling(p: PeerId, q: PeerId, n: nat): seq<Action> {
    if n == 0 then []
    else Filling(p, q, n - 1) + [Publish(p, Mono(n - 1), 1, 0, ["x"])] + [Accept(Copy(q, Mono(n - 1)), 0)]
  }

  /** `q` has staged the first `n` messages, and `r` has yet to accept the first of them. */
  ghost predicate FilledTo(s: Net, q: PeerId, r: PeerId, n: nat) {
    && s.published.Keys == MonoIds(n)
    && q in s.nodes && s.nodes[q].temp.Keys == MonoIds(n)
    && (n > 0 ==> Copy(r, "m") in s.copies && Copy(q, "m") in s.heard && s.heard[Copy(q, "m")] == {q})
  }

  lemma FillPublish(par: Params, s: Net, p: PeerId, q: PeerId, r: PeerId, n: nat)
    requires {p, q, r} <= par.members && p != q && p != r && FilledTo(s, q, r, n)
    ensures var t := DoPublish(par, s, p, Mono(n), Publication(p, 1, 0, ["x"]));
      && t.nodes == s.nodes && t.heard == s.heard && t.published.Keys == MonoIds(n + 1)
      && (n > 0 ==> Copy(r, "m") in t.copies) && Copy(r, Mono(n)) in t.copies && Copy(q, Mono(n)) in t.copies
  {
    MonoCount(n);
  }

  lemma FillAccept(par: Params, s: Net, q: PeerId, r: PeerId, n: nat)
    requires ValidParams(par) && !DirectNet(par) && q != r && n < MAX_CAPACITY
    requires s.published.Keys == MonoIds(n + 1) && q in s.nodes && s.nodes[q].temp.Keys == MonoIds(n)
    requires Copy(r, "m") in s.copies
    requires n > 0 ==> Copy(q, "m") in s.heard && s.heard[Copy(q, "m")] == {q}
    ensures Mono(n) in s.published && FilledTo(DoAccept(par, s, Copy(q, Mono(n)), 0), q, r, n + 1)
  {
    MonoCount(n);
    KeepsRoom(s.nodes[q].temp, n);
    assert Mono(n) == "m" <==> n == 0;
  }

  lemma FillMore(par: Params, s: Net, p: PeerId, q: PeerId, r: PeerId, n: nat)
    requires ValidParams(par) && !DirectNet(par) && {p, q, r} <= par.members && p != q && q != r && p != r
    requires FilledTo(s, q, r, n) && n < MAX_CAPACITY
    ensures Mono(n) !in s.published
    ensures var t := DoPublish(par, s, p, Mono(n), Publication(p, 1, 0, ["x"]));
      q in t.nodes && Mono(n) in t.published && FilledTo(DoAccept(par, t, Copy(q, Mono(n)), 0), q, r, n + 1)
  {
    MonoCount(n);
    FillPublish(par, s, p, q, r, n);
    assert Mono(0) == "m";
    FillAccept(par, DoPublish(par, s, p, Mono(n), Publication(p, 1, 0, ["x"])), q, r, n);
  }

  lemma KeepsRoom(temp: Temp, n: nat)
    requires temp.Keys == MonoIds(n) && n < MAX_CAPACITY
    ensures WithRoom(temp) == temp
  {
    MonoCount(n);
    assert |temp| == |temp.Keys| == n;
  }

  lemma {:induction false} Filled(par: Params, p: PeerId, q: PeerId, r: PeerId, n: nat)
    requires ValidParams(par) && !DirectNet(par) && {p, q, r} <= par.members && p != q && q != r && p != r
    requires n <= MAX_CAPACITY
    ensures FilledTo(Run(par, Filling(p, q, n)), q, r, n)
  {
    if n == 0 {
      MonoCount(0);
      assert MonoIds(0) == {};
    } else {
      var k := n - 1;
      Filled(par, p, q, r, k);
      FillMore(par, Run(par, Filling(p, q, k)), p, q, r, k);
      PublishAccept(par, Filling(p, q, k), p, q, Mono(k));
    }
  }

  lemma PublishAccept(par: Params, before: seq<Action>, p: PeerId, q: PeerId, id: string)
    requires ValidParams(par) && {p, q} <= par.members && p != q
    requires id !in Run(par, before).published && q in Run(par, before).nodes
    ensures Run(par, before + [Publish(p, id, 1, 0, ["x"])] + [Accept(Copy(q, id), 0)]) ==
      DoAccept(par, DoPublish(par, Run(par, before), p, id, Publication(p, 1, 0, ["x"])), Copy(q, id), 0)
  {
    var a0, a1 := Publish(p, id, 1, 0, ["x"]), Accept(Copy(q, id), 0);
    var s := Run(par, before);
    var s0 := DoPublish(par, s, p, id, Publication(p, 1, 0, ["x"]));
    RunAppend(par, before, a0);
    RunAppend(par, before + [a0], a1);
    assert Step(par, s, a0) == s0;
    assert Copy(q, id) in s0.copies;
    assert Step(par, s0, a1) == DoAccept(par, s0, Copy(q, id), 0);
  }

  /** A full staging area whose first entry has all its confirmations gives it up when the
      next message arrives before the handler of the entry. */
  lemma FullGivesUpFirst(par: Params, s: Net, p: PeerId, q: PeerId, r: PeerId)
    requires ValidParams(par) && q in s.nodes && s.nodes[q].temp.Keys == MonoIds(MAX_CAPACITY)
    ensures Copy(q, "m") in GivenUp(s, q)
  {
    var temp := s.nodes[q].temp;
    MonoCount(MAX_CAPACITY);
    assert |temp| == |temp.Keys|;
    assert Mono(0) in MonoIds(MAX_CAPACITY);
    forall id | id in temp ensures id == "m" || TextLess("m", id) {
      var j: nat :| j < MAX_CAPACITY && id == Mono(j);
      if j > 0 {
        MonoLess(0, j);
      }
    }
    FirstKeyUnique(temp, "m", FirstKey(temp));
  }

  lemma OtherAccepts(par: Params, s: Net, q: PeerId, r: PeerId)
    requires ValidParams(par) && !DirectNet(par) && Inv(par, s) && {q, r} <= par.members && q != r
    requires FilledTo(s, q, r, MAX_CAPACITY)
    ensures "m" in s.published && r in s.nodes
    ensures var t := DoAccept(par, s, Copy(r, "m"), 0);
      && Confirm(q, r, "m") in t.confirms && t.published == s.published
      && t.nodes[q] == s.nodes[q] && Copy(q, "m") in t.heard && t.heard[Copy(q, "m")] == {q}
  {
    assert Mono(0) in MonoIds(MAX_CAPACITY);
  }

  lemma SecondConfirms(par: Params, s: Net, q: PeerId, r: PeerId)
    requires ValidParams(par) && Inv(par, s) && Required(par) == 2
    requires var f, c := Confirm(q, r, "m"), Copy(q, "m");
      f in s.confirms && q in s.nodes && "m" in s.nodes[q].temp && c in s.heard && s.heard[c] == {q}
    ensures var t, c := DoHear(par, s, Confirm(q, r, "m")), Copy(q, "m");
      && Confirm(q, r, "m") in t.moving && c in t.heard && t.heard[c] == {q, r} && |{q, r}| == 2
      && t.published == s.published && t.nodes[q].temp.Keys == s.nodes[q].temp.Keys
  {
    var f := Confirm(q, r, "m");
    assert q != r;
    HearGrows(par, s, f);
    HearStartsHandler(par, s, f);
  }

  /** The confirmation of `r` reaches `q` while the first message is staged there. */
  lemma ConfirmedFirst(par: Params, before: seq<Action>, q: PeerId, r: PeerId) returns (actions: seq<Action>)
    requires ValidParams(par) && !DirectNet(par) && Required(par) == 2 && {q, r} <= par.members && q != r
    requires FilledTo(Run(par, before), q, r, MAX_CAPACITY)
    ensures var s, c := Run(par, actions), Copy(q, "m");
      && s.published == Run(par, before).published
      && q in s.nodes && s.nodes[q].temp.Keys == MonoIds(MAX_CAPACITY)
      && Confirm(q, r, "m") in s.moving && c in s.heard && s.heard[c] == {q, r}
  {
    var s, a, f := Run(par, before), Accept(Copy(r, "m"), 0), Confirm(q, r, "m");
    RunKeepsInv(par, before);
    OtherAccepts(par, s, q, r);
    var s0 := DoAccept(par, s, Copy(r, "m"), 0);
    RunAccept(par, before, Copy(r, "m"));
    RunHear(par, before + [a], f);
    actions := before + [a] + [Hear(f)];
    RunKeepsInv(par, before + [a]);
    assert Mono(0) in MonoIds(MAX_CAPACITY);
    SecondConfirms(par, s0, q, r);
  }

  /** The message that is one too many. */
  lemma LastMessage(par: Params, s: Net, p: PeerId, q: PeerId, r: PeerId)
    requires ValidParams(par) && q in s.nodes && s.nodes[q].temp.Keys == MonoIds(MAX_CAPACITY)
    requires var f, c := Confirm(q, r, "m"), Copy(q, "m"); f in s.moving && c in s.heard && s.heard[c] == {q, r}
    ensures var id, f, c := Mono(MAX_CAPACITY), Confirm(q, r, "m"), Copy(q, "m");
      var t := DoAccept(par, DoPublish(par, s, p, id, Publication(p, 1, 0, ["x"])), Copy(q, id), 0);
      f in t.moving && c in t.evicted && c in t.heard && t.heard[c] == {q, r}
  {
    FullGivesUpFirst(par, s, p, q, r);
    assert Mono(MAX_CAPACITY) != "m";
  }

  /** A message can have all its confirmations and still be lost: it is given up between the
      last confirmation and its handler. */
  lemma ConfirmedYetLost(par: Params, p: PeerId, q: PeerId, r: PeerId) returns (actions: seq<Action>)
    requires ValidParams(par) && !DirectNet(par) && Required(par) == 2
    requires {p, q, r} <= par.members && p != q && q != r && p != r
    ensures var s, c := Run(par, actions), Copy(q, "m");
      c in s.heard && |s.heard[c]| == Required(par) && Confirm(q, r, "m") in s.moving
    ensures forall after :: Copy(q, "m") !in Run(par, actions + after).released
  {
    Filled(par, p, q, r, MAX_CAPACITY);
    var before := ConfirmedFirst(par, Filling(p, q, MAX_CAPACITY), q, r);
    var s, id := Run(par, before), Mono(MAX_CAPACITY);
    MonoCount(MAX_CAPACITY);
    PublishAccept(par, before, p, q, id);
    actions := before + [Publish(p, id, 1, 0, ["x"])] + [Accept(Copy(q, id), 0)];
    LastMessage(par, s, p, q, r);
    assert |{q, r}| == 2;
    forall after ensures Copy(q, "m") !in Run(par, actions + after).released {
      EvictedForever(par, actions, Copy(q, "m"), after);
    }
  }
}
