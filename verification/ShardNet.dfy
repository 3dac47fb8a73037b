/**
 Joining and exiting a sharded network. A joining node subscribes, enters itself into its own
 map and announces the join; every node that hears of it enters the joiner and, in a task of
 its own, sends it an image of its map. An exiting node removes itself from its own map and
 announces that. All steps of all nodes interleave.
 */
module ShardNet {
  import opened Framing
  import opened Entries
  import opened ShardState
  import Gossip

  /** One call of `join_network`. */
  datatype Join = Join(peer: PeerId, shard: string, attempt: nat)

  /** The announcement of a join at a receiver. */
  datatype Note = Note(to: PeerId, join: Join)

  /** One call of `exit_network`. */
  datatype Exit = Exit(peer: PeerId, shard: string, attempt: nat)

  /** The announcement of an exit at a receiver. */
  datatype Farewell = Farewell(to: PeerId, exit: Exit)

  /** A map image on its way to the peer that joined. */
  datatype Image = Image(task: Note, shards: ShardMap)

  datatype Net = Net(
    maps: map<PeerId, ShardMap>,
    subscribed: set<PeerId>,
    started: set<Join>,      // the joiner has entered itself
    announced: set<Join>,    // the join was broadcast
    gossip: set<Note>,       // undelivered announcements
    updates: set<Note>,      // delivered, not yet entered into the map
    tasks: set<Note>,        // delivered, image not yet sent
    images: set<Image>,      // images on their way
    left: set<Exit>,         // the leaver has removed itself
    parted: set<Exit>,       // the exit was broadcast
    farewells: set<Farewell>, // exit announcements not yet handled
    lasting: set<Join>)      // history: joins after all earlier exits of the peer from the shard, before any later one

  datatype Action =
    | Subscribe(peer: PeerId)
    | Start(join: Join)
    | Announce(join: Join)
    | Deliver(note: Note)
    | Update(note: Note)
    | Publish(task: Note)
    | Merge(image: Image)
    | Leave(exit: Exit)
    | Part(exit: Exit)
    | Forget(farewell: Farewell)

  function Init(members: set<PeerId>): Net {
    Net(map p | p in members :: map[], {}, {}, {}, {}, {}, {}, {}, {}, {}, {}, {})
  }

  ghost predicate Enabled(s: Net, a: Action) {
    match a
    case Subscribe(p) => p in s.maps
    case Start(j) => j.peer in s.subscribed && j.peer in s.maps && j !in s.started && !Contains(j.shard, Gossip.SEPARATOR)
    case Announce(j) => j in s.started && j !in s.announced
    case Deliver(n) => n in s.gossip
    case Update(n) => n in s.updates && n.to in s.maps
    case Publish(n) => n in s.tasks && n.to in s.maps
    case Merge(i) => i in s.images && i.task.join.peer in s.maps
    case Leave(x) => x.peer in s.maps && x !in s.left && !Contains(x.shard, Gossip.SEPARATOR)
    case Part(x) => x in s.left && x !in s.parted
    case Forget(f) => f in s.farewells && f.to in s.maps
  }

  /** The change an announcement makes is read from its text. */
  function Heard(m: ShardMap, j: Join): ShardMap {
    match Gossip.Decode(Gossip.Framed(Gossip.ShardJoin(j.peer, j.shard)))
    case Protocol(ShardJoin(peer, shard)) => Joined(m, peer, shard)
    case _ => m
  }

  function HeardExit(m: ShardMap, x: Exit): ShardMap {
    match Gossip.Decode(Gossip.Framed(Gossip.ShardExit(x.peer, x.shard)))
    case Protocol(ShardExit(peer, shard)) => Exited(m, peer, shard)
    case _ => m
  }

  /** Every exit of the peer from the shard has been announced and handled everywhere. */
  ghost predicate Handled(s: Net, peer: PeerId, shard: string) {
    && (forall x | x in s.left && x.peer == peer && x.shard == shard :: x in s.parted)
    && (forall f | f in s.farewells :: !(f.exit.peer == peer && f.exit.shard == shard))
  }

  ghost function Step(s: Net, a: Action): Net {
    if !Enabled(s, a) then s
    else match a
      case Subscribe(p) => s.(subscribed := s.subscribed + {p})
      case Start(j) =>
        s.(maps := s.maps[j.peer := Joined(s.maps[j.peer], j.peer, j.shard)], started := s.started + {j},
           lasting := s.lasting + if Handled(s, j.peer, j.shard) then {j} else {})
      case Announce(j) =>
        s.(announced := s.announced + {j}, gossip := s.gossip + set q | q in s.subscribed && q != j.peer :: Note(q, j))
      case Deliver(n) =>
        s.(gossip := s.gossip - {n}, updates := s.updates + {n}, tasks := s.tasks + {n})
      case Update(n) =>
        s.(updates := s.updates - {n}, maps := s.maps[n.to := Heard(s.maps[n.to], n.join)])
      case Publish(n) =>
        s.(tasks := s.tasks - {n}, images := s.images + {Image(n, s.maps[n.to])})
      case Merge(i) =>
        var p := i.task.join.peer;
        s.(images := s.images - {i}, maps := s.maps[p := Merged(s.maps[p], i.shards)])
      case Leave(x) =>
        s.(maps := s.maps[x.peer := Exited(s.maps[x.peer], x.peer, x.shard)], left := s.left + {x},
           lasting := set j | j in s.lasting && !(j.peer == x.peer && j.shard == x.shard))
      case Part(x) =>
        s.(parted := s.parted + {x}, farewells := s.farewells + set q | q in s.subscribed && q != x.peer :: Farewell(q, x))
      case Forget(f) =>
        s.(farewells := s.farewells - {f}, maps := s.maps[f.to := HeardExit(s.maps[f.to], f.exit)])
  }

  ghost function Run(members: set<PeerId>, actions: seq<Action>): Net {
    if actions == [] then Init(members)
    else Step(Run(members, actions[..|actions| - 1]), actions[|actions| - 1])
  }

  // ---- Invariants ------------------------------------------------------------------

  ghost predicate Entered(m: ShardMap, j: Join) {
    j.peer in Peers(m, j.shard)
  }

  ghost predicate Started(s: Net, peer: PeerId, shard: string) {
    exists attempt :: Join(peer, shard, attempt) in s.started
  }

  /** Some exit of the peer from the shard has begun. */
  ghost predicate HasLeft(s: Net, peer: PeerId, shard: string) {
    exists attempt :: Exit(peer, shard, attempt) in s.left
  }

  ghost predicate Shape(s: Net) {
    && s.announced <= s.started && s.parted <= s.left
    && (forall j | j in s.started :: j.peer in s.subscribed && j.peer in s.maps && !Contains(j.shard, Gossip.SEPARATOR))
    && (forall x | x in s.left :: !Contains(x.shard, Gossip.SEPARATOR))
    && (forall f | f in s.farewells :: f.exit in s.left)
    && s.subscribed <= s.maps.Keys
    && (forall n | n in s.gossip || n in s.updates || n in s.tasks :: n.join in s.started && n.to in s.subscribed)
    && (forall i | i in s.images :: i.task.join in s.started)
  }

  /** A map names only joins that were started. */
  ghost predicate Sound(s: Net, m: ShardMap) {
    NoEmptyShard(m) && forall shard, p | p in Peers(m, shard) :: Started(s, p, shard)
  }

  ghost predicate SoundInv(s: Net) {
    && (forall p | p in s.maps :: Sound(s, s.maps[p]))
    && (forall i | i in s.images :: Sound(s, i.shards))
  }

  /** A lasting join has no unhandled exit, and every join without an exit is lasting. */
  ghost predicate LastingInv(s: Net) {
    && (forall j | j in s.lasting :: j in s.started && Handled(s, j.peer, j.shard))
    && (forall j | j in s.started && !HasLeft(s, j.peer, j.shard) :: j in s.lasting)
  }

  /** A node with a lasting join is in its own map. */
  ghost predicate OwnInv(s: Net) {
    forall j | j in s.lasting :: j.peer in s.maps && Entered(s.maps[j.peer], j)
  }

  ghost predicate HasAnnounced(s: Net, q: PeerId) {
    exists j :: j in s.announced && j.peer == q
  }

  /** The announcing node has yet to send an image to `q`, because of some join of `q`. */
  ghost predicate ImageDue(s: Net, p: PeerId, q: PeerId) {
    exists n :: (n in s.gossip || n in s.tasks) && n.to == p && n.join.peer == q
  }

  ghost predicate ImageComing(s: Net, j: Join, q: PeerId) {
    exists i :: i in s.images && i.task.join.peer == q && Entered(i.shards, j)
  }

  /** Nothing can keep `q` from learning of the announced join `j`. */
  ghost predicate OnItsWay(s: Net, j: Join, q: PeerId)
    requires q in s.maps
  {
    || Entered(s.maps[q], j)
    || Note(q, j) in s.gossip || Note(q, j) in s.updates
    || !HasAnnounced(s, q)
    || ImageDue(s, j.peer, q)
    || ImageComing(s, j, q)
  }

  ghost predicate ArrivalInv(s: Net)
    requires s.subscribed <= s.maps.Keys
  {
    forall j, q | j in s.announced && j in s.lasting && q in s.subscribed && q != j.peer :: OnItsWay(s, j, q)
  }

  ghost predicate Inv(s: Net) {
    Shape(s) && SoundInv(s) && LastingInv(s) && OwnInv(s) && ArrivalInv(s)
  }

  lemma HeardIsJoined(s: Net, m: ShardMap, j: Join)
    requires !Contains(j.shard, Gossip.SEPARATOR)
    ensures Heard(m, j) == Joined(m, j.peer, j.shard)
  {
    Gossip.ShardJoinDecodes(j.peer, j.shard);
  }

  lemma HeardExitIsExited(s: Net, m: ShardMap, x: Exit)
    requires !Contains(x.shard, Gossip.SEPARATOR)
    ensures HeardExit(m, x) == Exited(m, x.peer, x.shard)
  {
    Gossip.ShardExitDecodes(x.peer, x.shard);
  }

  lemma StepKeepsShape(s: Net, a: Action)
    requires Shape(s)
    ensures Shape(Step(s, a))
  {
  }

  lemma JoinedIsSound(s: Net, m: ShardMap, j: Join)
    requires Sound(s, m) && j in s.started
    ensures Sound(s, Joined(m, j.peer, j.shard))
  {
  }

  lemma ExitedIsSound(s: Net, m: ShardMap, x: Exit)
    requires Sound(s, m)
    ensures Sound(s, Exited(m, x.peer, x.shard))
  {
  }

  lemma SoundGrows(s: Net, t: Net)
    requires s.started <= t.started
    ensures forall m | Sound(s, m) :: Sound(t, m)
  {
  }

  lemma StepKeepsSound(s: Net, a: Action)
    requires Shape(s) && SoundInv(s)
    ensures SoundInv(Step(s, a))
  {
    var t := Step(s, a);
    SoundGrows(s, t);
    if Enabled(s, a) {
      match a
      case Start(j) => JoinedIsSound(t, s.maps[j.peer], j);
      case Update(n) =>
        HeardIsJoined(s, s.maps[n.to], n.join);
        JoinedIsSound(t, s.maps[n.to], n.join);
      case Merge(i) =>
        var m := s.maps[i.task.join.peer];
        NoEmptyShardStays(m, i.shards, i.task.join.peer, "");
        forall shard, p | p in Peers(Merged(m, i.shards), shard) ensures Started(t, p, shard) {
          PeersMerged(m, i.shards, shard);
          assert Started(s, p, shard);
        }
      case Leave(x) => ExitedIsSound(t, s.maps[x.peer], x);
      case Forget(f) =>
        HeardExitIsExited(s, s.maps[f.to], f.exit);
        ExitedIsSound(t, s.maps[f.to], f.exit);
      case _ =>
    }
  }

  lemma LeftStays(s: Net, a: Action, peer: PeerId, shard: string)
    requires HasLeft(s, peer, shard)
    ensures HasLeft(Step(s, a), peer, shard)
  {
    var attempt :| Exit(peer, shard, attempt) in s.left;
    assert Exit(peer, shard, attempt) in Step(s, a).left;
  }

  /** A lasting join stays handled until the peer leaves the shard, which ends it. */
  lemma HandledStays(s: Net, a: Action, peer: PeerId, shard: string)
    requires Handled(s, peer, shard)
    requires Enabled(s, a) && a.Leave? ==> !(a.exit.peer == peer && a.exit.shard == shard)
    ensures Handled(Step(s, a), peer, shard)
  {
  }

  lemma StepKeepsLasting(s: Net, a: Action)
    requires Shape(s) && LastingInv(s)
    ensures LastingInv(Step(s, a))
  {
    var t := Step(s, a);
    forall j | j in t.lasting ensures j in t.started && Handled(t, j.peer, j.shard) {
      HandledStays(s, a, j.peer, j.shard);
    }
    forall j | j in t.started && !HasLeft(t, j.peer, j.shard) ensures j in t.lasting {
      if HasLeft(s, j.peer, j.shard) {
        LeftStays(s, a, j.peer, j.shard);
      }
      NotLeft(s, j.peer, j.shard);
      if a.Leave? && Enabled(s, a) {
        assert Exit(a.exit.peer, a.exit.shard, a.exit.attempt) in t.left;
      }
    }
  }

  lemma NotLeft(s: Net, peer: PeerId, shard: string)
    requires Shape(s) && !HasLeft(s, peer, shard)
    ensures Handled(s, peer, shard)
  {
    assert forall x | x in s.left :: x == Exit(x.peer, x.shard, x.attempt);
  }

  /** What a map says of a lasting join stays. */
  lemma MapsGrow(s: Net, a: Action, q: PeerId, j: Join)
    requires Shape(s) && LastingInv(s) && q in s.maps && Entered(s.maps[q], j)
    requires j in s.lasting && j in Step(s, a).lasting
    ensures q in Step(s, a).maps && Entered(Step(s, a).maps[q], j)
  {
    if Enabled(s, a) {
      match a
      case Update(n) => HeardIsJoined(s, s.maps[n.to], n.join);
      case Merge(i) => PeersMerged(s.maps[i.task.join.peer], i.shards, j.shard);
      case Forget(f) => HeardExitIsExited(s, s.maps[f.to], f.exit);
      case _ =>
    }
  }

  lemma StepKeepsOwn(s: Net, a: Action)
    requires Shape(s) && LastingInv(s) && OwnInv(s)
    ensures OwnInv(Step(s, a))
  {
    var t := Step(s, a);
    forall j | j in t.lasting ensures j.peer in t.maps && Entered(t.maps[j.peer], j) {
      if j in s.lasting {
        MapsGrow(s, a, j.peer, j);
      }
    }
  }

  /** Each way in which a join can be on its way is kept or turned into the next one. */
  lemma ArrivalGoesOn(s: Net, a: Action, j: Join, q: PeerId)
    requires Shape(s) && LastingInv(s) && OwnInv(s) && ArrivalInv(s) && Enabled(s, a)
    requires j in s.announced && j in s.lasting && j in Step(s, a).lasting
    requires q in s.subscribed && q != j.peer
    ensures q in Step(s, a).maps && OnItsWay(Step(s, a), j, q)
  {
    var t := Step(s, a);
    assert OnItsWay(s, j, q);
    if Entered(s.maps[q], j) {
      MapsGrow(s, a, q, j);
    } else if Note(q, j) in s.gossip {
      assert Note(q, j) in t.gossip || Note(q, j) in t.updates;
    } else if Note(q, j) in s.updates {
      if a.Update? && a.note == Note(q, j) {
        HeardIsJoined(s, s.maps[q], j);
        assert Entered(t.maps[q], j);
      }
    } else if !HasAnnounced(s, q) {
      if HasAnnounced(t, q) {
        assert a.Announce? && a.join.peer == q;
        assert Note(j.peer, a.join) in t.gossip;
        assert ImageDue(t, j.peer, q);
      }
    } else if ImageDue(s, j.peer, q) {
      var n :| (n in s.gossip || n in s.tasks) && n.to == j.peer && n.join.peer == q;
      if a.Publish? && a.task == n {
        assert Image(n, s.maps[n.to]) in t.images;
        assert ImageComing(t, j, q);
      } else {
        assert n in t.gossip || n in t.tasks;
      }
    } else {
      var i :| i in s.images && i.task.join.peer == q && Entered(i.shards, j);
      if a.Merge? && a.image == i {
        PeersMerged(s.maps[q], i.shards, j.shard);
      } else {
        assert i in t.images;
      }
    }
  }

  lemma StepKeepsArrival(s: Net, a: Action)
    requires Shape(s) && LastingInv(s) && OwnInv(s) && ArrivalInv(s)
    ensures Shape(Step(s, a)) && ArrivalInv(Step(s, a))
  {
    StepKeepsShape(s, a);
    if Enabled(s, a) {
      var t := Step(s, a);
      forall j, q | j in t.announced && j in t.lasting && q in t.subscribed && q != j.peer
        ensures OnItsWay(t, j, q)
      {
        assert j in s.announced ==> j in s.lasting;
        if j in s.announced && q in s.subscribed {
          ArrivalGoesOn(s, a, j, q);
        } else if j in s.announced {
          assert a == Subscribe(q) && !HasAnnounced(t, q);
        } else {
          assert a == Announce(j) && Note(q, j) in t.gossip;
        }
      }
    }
  }

  lemma {:induction false} RunKeepsInv(members: set<PeerId>, actions: seq<Action>)
    ensures Inv(Run(members, actions)) && Run(members, actions).maps.Keys == members
  {
    if actions != [] {
      var before, a := actions[..|actions| - 1], actions[|actions| - 1];
      RunKeepsInv(members, before);
      StepKeepsShape(Run(members, before), a);
      StepKeepsSound(Run(members, before), a);
      StepKeepsLasting(Run(members, before), a);
      StepKeepsOwn(Run(members, before), a);
      StepKeepsArrival(Run(members, before), a);
    }
  }

  // ---- Convergence -----------------------------------------------------------------

  /** Every join has been announced, and nothing is left to deliver, enter, send or merge. */
  ghost predicate Quiet(s: Net) {
    s.started == s.announced && s.gossip == {} && s.updates == {} && s.tasks == {} && s.images == {}
  }

  /** In every situation, a node knows only of joins that were started. */
  lemma NeverInvented(members: set<PeerId>, actions: seq<Action>, q: PeerId, p: PeerId, shard: string)
    requires var s := Run(members, actions); q in s.maps && p in Peers(s.maps[q], shard)
    ensures Started(Run(members, actions), p, shard)
  {
    RunKeepsInv(members, actions);
  }

  /** No run of joins, exits and merges leaves an empty shard in any map or image. */
  lemma {:induction false} NeverEmpty(members: set<PeerId>, actions: seq<Action>)
    ensures var s := Run(members, actions);
      (forall q | q in s.maps :: NoEmptyShard(s.maps[q])) && (forall i | i in s.images :: NoEmptyShard(i.shards))
  {
    RunKeepsInv(members, actions);
    var s := Run(members, actions);
    assert forall q | q in s.maps :: Sound(s, s.maps[q]);
  }

  /** The peer has joined the shard after all its earlier exits from it had been handled, and
      has not left it since. */
  ghost predicate Belongs(s: Net, peer: PeerId, shard: string) {
    exists attempt :: Join(peer, shard, attempt) in s.lasting
  }

  /** Once nothing is pending, the map of every node that joined names each peer that belongs to
      a shard; of the peers that never exited the shard it names exactly those that joined.
      However the steps interleaved, and whatever other exits there were. */
  lemma JoinsConverge(members: set<PeerId>, actions: seq<Action>, q: PeerId)
    requires var s := Run(members, actions); Quiet(s) && HasAnnounced(s, q)
    ensures var s := Run(members, actions);
      && q in s.maps && NoEmptyShard(s.maps[q])
      && (forall p, shard | Belongs(s, p, shard) :: p in Peers(s.maps[q], shard))
      && (forall p, shard | !HasLeft(s, p, shard) :: p in Peers(s.maps[q], shard) <==> Started(s, p, shard))
  {
    RunKeepsInv(members, actions);
    var s := Run(members, actions);
    assert q in s.maps && Sound(s, s.maps[q]);
    forall p, shard | Belongs(s, p, shard) ensures p in Peers(s.maps[q], shard) {
      var attempt :| Join(p, shard, attempt) in s.lasting;
      var j := Join(p, shard, attempt);
      if p == q {
        assert Entered(s.maps[j.peer], j);
      } else {
        assert OnItsWay(s, j, q);
      }
    }
    forall p, shard | Started(s, p, shard) && !HasLeft(s, p, shard) ensures p in Peers(s.maps[q], shard) {
      var attempt :| Join(p, shard, attempt) in s.started;
      assert Join(p, shard, attempt) in s.lasting;
      assert Belongs(s, p, shard);
    }
  }

  /** So without exits all joined nodes have one and the same map. */
  lemma JoinedNodesAgree(members: set<PeerId>, actions: seq<Action>, p: PeerId, q: PeerId)
    requires var s := Run(members, actions); Quiet(s) && HasAnnounced(s, p) && HasAnnounced(s, q) && s.left == {}
    ensures var s := Run(members, actions); p in s.maps && q in s.maps && s.maps[p] == s.maps[q]
  {
    JoinsConverge(members, actions, p);
    JoinsConverge(members, actions, q);
    var s := Run(members, actions);
    var m, n := s.maps[p], s.maps[q];
    assert forall x, shard :: !HasLeft(s, x, shard);
    forall shard ensures Peers(m, shard) == Peers(n, shard) && (shard in m <==> shard in n) {
      assert forall x :: x in Peers(m, shard) <==> x in Peers(n, shard);
      assert shard in m <==> Peers(m, shard) != {};
      assert shard in n <==> Peers(n, shard) != {};
    }
    assert forall shard | shard in m :: m[shard] == Peers(m, shard);
  }

  // ---- Coming to rest --------------------------------------------------------------

  lemma RunAppend(members: set<PeerId>, actions: seq<Action>, a: Action)
    ensures Run(members, actions + [a]) == Step(Run(members, actions), a)
  {
  }

  /** The action was taken at this position of the run. */
  ghost predicate Did(members: set<PeerId>, actions: seq<Action>, i: int, a: Action) {
    0 <= i < |actions| && actions[i] == a && Enabled(Run(members, actions[..i]), a)
  }

  lemma DidBefore(members: set<PeerId>, actions: seq<Action>, i: int, a: Action)
    requires actions != [] && i < |actions| - 1
    ensures Did(members, actions, i, a) <==> Did(members, actions[..|actions| - 1], i, a)
  {
    if 0 <= i {
      assert actions[..|actions| - 1][..i] == actions[..i];
    }
  }

  /** At position `i` the join began, all exits of the peer from the shard were handled, and none came later. */
  ghost predicate BeganAndStayed(members: set<PeerId>, actions: seq<Action>, j: Join, i: int) {
    && Did(members, actions, i, Start(j))
    && Handled(Run(members, actions[..i]), j.peer, j.shard)
    && forall k, x | i < k && Did(members, actions, k, Leave(x)) :: !(x.peer == j.peer && x.shard == j.shard)
  }

  lemma StayedBefore(members: set<PeerId>, actions: seq<Action>, j: Join, i: int)
    requires actions != [] && i < |actions| - 1 && BeganAndStayed(members, actions, j, i)
    ensures BeganAndStayed(members, actions[..|actions| - 1], j, i)
    ensures var a := actions[|actions| - 1];
      a.Leave? && Enabled(Run(members, actions[..|actions| - 1]), a) ==> !(a.exit.peer == j.peer && a.exit.shard == j.shard)
  {
    var n := |actions| - 1;
    var before := actions[..n];
    DidBefore(members, actions, i, Start(j));
    assert before[..i] == actions[..i];
    forall k, x | i < k && Did(members, before, k, Leave(x)) ensures !(x.peer == j.peer && x.shard == j.shard) {
      DidBefore(members, actions, k, Leave(x));
    }
    if actions[n].Leave? && Enabled(Run(members, before), actions[n]) {
      assert Did(members, actions, n, Leave(actions[n].exit));
    }
  }

  lemma StayedLonger(members: set<PeerId>, actions: seq<Action>, j: Join, i: int)
    requires actions != [] && BeganAndStayed(members, actions[..|actions| - 1], j, i)
    requires var a := actions[|actions| - 1];
      a.Leave? && Enabled(Run(members, actions[..|actions| - 1]), a) ==> !(a.exit.peer == j.peer && a.exit.shard == j.shard)
    ensures BeganAndStayed(members, actions, j, i)
  {
    var n := |actions| - 1;
    DidBefore(members, actions, i, Start(j));
    assert actions[..n][..i] == actions[..i];
    forall k, x | i < k && Did(members, actions, k, Leave(x)) ensures !(x.peer == j.peer && x.shard == j.shard) {
      if k < n {
        DidBefore(members, actions, k, Leave(x));
      }
    }
  }

  /** A lasting join is one that began after the earlier exits were handled and was not followed by another. */
  lemma {:induction false} LastingExactly(members: set<PeerId>, actions: seq<Action>, j: Join)
    ensures j in Run(members, actions).lasting <==> exists i :: BeganAndStayed(members, actions, j, i)
  {
    if actions != [] {
      var n := |actions| - 1;
      var before := actions[..n];
      LastingExactly(members, before, j);
      if j in Run(members, actions).lasting {
        if i :| j in Run(members, before).lasting && BeganAndStayed(members, before, j, i) {
          StayedLonger(members, actions, j, i);
        } else {
          assert BeganAndStayed(members, actions, j, n);
        }
      }
      if i :| BeganAndStayed(members, actions, j, i) && i < n {
        StayedBefore(members, actions, j, i);
      }
    }
  }

  lemma FarewellsKnown(members: set<PeerId>, actions: seq<Action>)
    ensures forall f | f in Run(members, actions).farewells :: f.to in Run(members, actions).maps
  {
    if actions != [] {
      RunKeepsInv(members, actions[..|actions| - 1]);
      FarewellsKnown(members, actions[..|actions| - 1]);
    }
  }

  ghost predicate AtRest(s: Net) {
    Quiet(s) && s.left == s.parted && s.farewells == {}
  }

  lemma NothingLeft(members: set<PeerId>, before: seq<Action>)
    ensures var s := Run(members, before);
      (s.started - s.announced == {} ==> s.started == s.announced) && (s.left - s.parted == {} ==> s.left == s.parted)
  {
    RunKeepsInv(members, before);
    var s := Run(members, before);
    assert s.started == s.announced + (s.started - s.announced);
    assert s.left == s.parted + (s.left - s.parted);
  }

  lemma Announced(members: set<PeerId>, before: seq<Action>, j: Join)
    requires j in Run(members, before).started - Run(members, before).announced
    ensures var s, t := Run(members, before), Run(members, before + [Announce(j)]);
      t.started == s.started && t.left == s.left && t.started - t.announced == s.started - s.announced - {j}
  {
    RunAppend(members, before, Announce(j));
  }

  lemma Regrouped(before: seq<Action>, a: Action, rest: seq<Action>)
    ensures before + ([a] + rest) == before + [a] + rest
  {
  }

  lemma {:induction false} AnnounceAll(members: set<PeerId>, before: seq<Action>) returns (more: seq<Action>)
    ensures var s, t := Run(members, before), Run(members, before + more);
      t.started == s.started == t.announced && t.left == s.left
    decreases |Run(members, before).started - Run(members, before).announced|
  {
    if j :| j in Run(members, before).started - Run(members, before).announced {
      Announced(members, before, j);
      var rest := AnnounceAll(members, before + [Announce(j)]);
      more := [Announce(j)] + rest;
      Regrouped(before, Announce(j), rest);
    } else {
      NothingLeft(members, before);
      more := [];
      assert before + [] == before;
    }
  }

  lemma {:induction false} DeliverAll(members: set<PeerId>, before: seq<Action>) returns (more: seq<Action>)
    requires Run(members, before).started == Run(members, before).announced
    ensures var s, t := Run(members, before), Run(members, before + more);
      t.started == s.started == t.announced && t.left == s.left && t.gossip == {}
    decreases |Run(members, before).gossip|
  {
    var s := Run(members, before);
    if n :| n in s.gossip {
      RunAppend(members, before, Deliver(n));
      var rest := DeliverAll(members, before + [Deliver(n)]);
      more := [Deliver(n)] + rest;
      Regrouped(before, Deliver(n), rest);
    } else {
      more := [];
      assert before + [] == before;
    }
  }

  lemma Answered(members: set<PeerId>, before: seq<Action>, a: Action)
    requires var s := Run(members, before);
      (a.Update? && a.note in s.updates) || (a.Publish? && a.task in s.tasks) || (a.Merge? && a.image in s.images)
    ensures var s, t := Run(members, before), Run(members, before + [a]);
      && t.started == s.started && t.announced == s.announced && t.left == s.left && t.gossip == s.gossip
      && |t.updates| == |s.updates| - (if a.Update? then 1 else 0)
      && |t.tasks| == |s.tasks| - (if a.Publish? then 1 else 0)
      && (a.Merge? ==> |t.images| == |s.images| - 1)
  {
    RunKeepsInv(members, before);
    RunAppend(members, before, a);
  }

  lemma {:induction false} AnswerAll(members: set<PeerId>, before: seq<Action>) returns (more: seq<Action>)
    requires Run(members, before).started == Run(members, before).announced && Run(members, before).gossip == {}
    ensures var s, t := Run(members, before), Run(members, before + more);
      t.started == s.started && Quiet(t) && t.left == s.left
    decreases |Run(members, before).updates|, |Run(members, before).tasks|, |Run(members, before).images|
  {
    var a: Action;
    if n :| n in Run(members, before).updates {
      a := Update(n);
    } else if n :| n in Run(members, before).tasks {
      a := Publish(n);
    } else if i :| i in Run(members, before).images {
      a := Merge(i);
    } else {
      more := [];
      assert before + [] == before;
      return;
    }
    Answered(members, before, a);
    var rest := AnswerAll(members, before + [a]);
    more := [a] + rest;
    Regrouped(before, a, rest);
  }

  lemma Parted(members: set<PeerId>, before: seq<Action>, a: Action)
    requires Quiet(Run(members, before))
    requires var s := Run(members, before);
      (a.Part? && a.exit in s.left - s.parted) || (a.Forget? && a.farewell in s.farewells)
    ensures var s, t := Run(members, before), Run(members, before + [a]);
      && Quiet(t) && t.started == s.started && t.left == s.left
      && |t.left - t.parted| == |s.left - s.parted| - (if a.Part? then 1 else 0)
      && (a.Forget? ==> t.parted == s.parted && |t.farewells| == |s.farewells| - 1)
  {
    FarewellsKnown(members, before);
    RunAppend(members, before, a);
    var s := Run(members, before);
    if a.Part? {
      assert s.left - (s.parted + {a.exit}) == s.left - s.parted - {a.exit};
    }
  }

  lemma {:induction false} PartAll(members: set<PeerId>, before: seq<Action>) returns (more: seq<Action>)
    requires Quiet(Run(members, before))
    ensures var s, t := Run(members, before), Run(members, before + more);
      t.started == s.started && Quiet(t) && t.left == s.left == t.parted
    ensures forall a | a in more :: a.Part?
    decreases |Run(members, before).left - Run(members, before).parted|
  {
    if x :| x in Run(members, before).left - Run(members, before).parted {
      Parted(members, before, Part(x));
      var rest := PartAll(members, before + [Part(x)]);
      more := [Part(x)] + rest;
      Regrouped(before, Part(x), rest);
    } else {
      NothingLeft(members, before);
      more := [];
      assert before + [] == before;
    }
  }

  lemma {:induction false} ForgetAll(members: set<PeerId>, before: seq<Action>) returns (more: seq<Action>)
    requires Quiet(Run(members, before)) && Run(members, before).left == Run(members, before).parted
    ensures var s, t := Run(members, before), Run(members, before + more);
      t.started == s.started && AtRest(t) && t.left == s.left
    ensures forall a | a in more :: a.Forget?
    decreases |Run(members, before).farewells|
  {
    if f :| f in Run(members, before).farewells {
      Parted(members, before, Forget(f));
      var rest := ForgetAll(members, before + [Forget(f)]);
      more := [Forget(f)] + rest;
      Regrouped(before, Forget(f), rest);
    } else {
      more := [];
      assert before + [] == before;
    }
  }

  lemma FiveParts(before: seq<Action>, a: seq<Action>, b: seq<Action>, c: seq<Action>, d: seq<Action>, e: seq<Action>)
    ensures before + (a + b + c + d + e) == before + a + b + c + d + e
  {
  }

  /** Every situation can come to rest without further joins and exits: what is pending is
      announced, delivered, entered, answered, merged and forgotten. */
  lemma ComesToRest(members: set<PeerId>, before: seq<Action>) returns (more: seq<Action>)
    ensures var s, t := Run(members, before), Run(members, before + more);
      AtRest(t) && t.started == s.started && t.left == s.left
  {
    var a := AnnounceAll(members, before);
    var b := DeliverAll(members, before + a);
    var c := AnswerAll(members, before + a + b);
    var d := PartAll(members, before + a + b + c);
    var e := ForgetAll(members, before + a + b + c + d);
    more := a + b + c + d + e;
    FiveParts(before, a, b, c, d, e);
  }
}
