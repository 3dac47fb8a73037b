/**
 What becomes of an exit from a shard. It lasts if nothing that names the peer is on its way
 and no join is announced before everybody has handled it. An image on its way can undo it, and
 a late announcement of it can undo the next join of the peer.
 */
module ShardExits {
  import opened Framing
  import opened Entries
  import opened ShardState
  import opened ShardNet
  import Gossip

  /** Some steps in a row. */
  ghost function Steps(s: Net, actions: seq<Action>): Net
    decreases |actions|
  {
    if actions == [] then s else Step(Steps(s, actions[..|actions| - 1]), actions[|actions| - 1])
  }

  lemma {:induction false} RunSteps(members: set<PeerId>, before: seq<Action>, actions: seq<Action>)
    ensures Run(members, before + actions) == Steps(Run(members, before), actions)
    decreases |actions|
  {
    if actions == [] {
      assert before + actions == before;
    } else {
      var k := |actions| - 1;
      RunSteps(members, before, actions[..k]);
      RunAppend(members, before + actions[..k], actions[k]);
      assert before + actions == before + actions[..k] + [actions[k]];
    }
  }

  lemma {:induction false} StepsMore(s: Net, first: seq<Action>, more: seq<Action>)
    ensures Steps(s, first + more) == Steps(Steps(s, first), more)
    decreases |more|
  {
    if more == [] {
      assert first + more == first;
    } else {
      var k := |more| - 1;
      StepsMore(s, first, more[..k]);
      assert (first + more)[..|first + more| - 1] == first + more[..k];
    }
  }

  lemma OneStep(s: Net, a: Action)
    ensures Steps(s, [a]) == Step(s, a)
  {
    assert Steps(s, []) == s && [a][..0] == [];
  }

  lemma TwoSteps(s: Net, a: Action, b: Action)
    ensures Steps(s, [a, b]) == Step(Step(s, a), b)
  {
    OneStep(s, a);
    assert [a, b][..1] == [a];
  }

  // ---- Exits that last -------------------------------------------------------------

  ghost predicate Names(s: Net, q: PeerId, p: PeerId, shard: string) {
    q in s.maps && p in Peers(s.maps[q], shard)
  }

  /** A node that never subscribed knows of nobody. */
  ghost predicate OnlySubscribers(s: Net) {
    forall q, p, shard | Names(s, q, p, shard) :: q in s.subscribed
  }

  lemma StepKeepsSubscribers(s: Net, a: Action)
    requires Shape(s) && OnlySubscribers(s)
    ensures OnlySubscribers(Step(s, a))
  {
    var t := Step(s, a);
    if a.Forget? && Enabled(s, a) {
      HeardExitIsExited(s, s.maps[a.farewell.to], a.farewell.exit);
    }
    forall q, p, shard | Names(t, q, p, shard) ensures q in t.subscribed {
      if q !in s.subscribed {
        assert !Names(s, q, p, shard);
      }
    }
  }

  lemma {:induction false} RunKeepsSubscribers(members: set<PeerId>, actions: seq<Action>)
    ensures Shape(Run(members, actions)) && OnlySubscribers(Run(members, actions))
  {
    RunKeepsInv(members, actions);
    if actions != [] {
      var before := actions[..|actions| - 1];
      RunKeepsSubscribers(members, before);
      StepKeepsSubscribers(Run(members, before), actions[|actions| - 1]);
    }
  }

  /** No announcement of a join of the peer is pending or still to be made. */
  ghost predicate NoJoinPending(s: Net, p: PeerId, shard: string) {
    && (forall n | n in s.gossip || n in s.updates :: !(n.join.peer == p && n.join.shard == shard))
    && (forall j | j in s.started && j !in s.announced :: !(j.peer == p && j.shard == shard))
  }

  /** Nobody names the peer, and nothing that does is on its way. */
  ghost predicate Forgotten(s: Net, p: PeerId, shard: string) {
    && (forall q :: !Names(s, q, p, shard))
    && (forall i | i in s.images :: p !in Peers(i.shards, shard))
    && NoJoinPending(s, p, shard)
  }

  /** What is forgotten stays forgotten, whoever else joins and exits, until the peer joins again. */
  lemma StepKeepsForgotten(s: Net, a: Action, p: PeerId, shard: string)
    requires Shape(s) && Forgotten(s, p, shard)
    requires a.Start? ==> !(a.join.peer == p && a.join.shard == shard)
    ensures Forgotten(Step(s, a), p, shard)
  {
    var t := Step(s, a);
    if Enabled(s, a) {
      match a
      case Update(n) => HeardIsJoined(s, s.maps[n.to], n.join);
      case Merge(i) => PeersMerged(s.maps[i.task.join.peer], i.shards, shard);
      case Publish(n) => assert !Names(s, n.to, p, shard);
      case Forget(f) => HeardExitIsExited(s, s.maps[f.to], f.exit);
      case _ =>
    }
    forall q ensures !Names(t, q, p, shard) {
      assert !Names(s, q, p, shard);
    }
  }

  /** An exit is being handled: whoever still names the peer will hear of it. */
  ghost predicate Fading(s: Net, x: Exit) {
    && s.gossip == {} && s.updates == {} && s.tasks == {} && s.images == {}
    && NoJoinPending(s, x.peer, x.shard)
    && x in s.left
    && (forall q | Names(s, q, x.peer, x.shard) ::
          q != x.peer && q in s.subscribed && (x in s.parted ==> Farewell(q, x) in s.farewells))
  }

  /** The steps that may happen while everybody handles the exit: no join is announced, and the
      peer does not join the shard again. */
  predicate Undisturbed(a: Action, x: Exit) {
    !a.Announce? && (a.Start? ==> !(a.join.peer == x.peer && a.join.shard == x.shard))
  }

  lemma StepKeepsFading(s: Net, a: Action, x: Exit)
    requires Shape(s) && OnlySubscribers(s) && Fading(s, x) && Undisturbed(a, x)
    ensures Fading(Step(s, a), x)
  {
    var t := Step(s, a);
    if a.Forget? && Enabled(s, a) {
      HeardExitIsExited(s, s.maps[a.farewell.to], a.farewell.exit);
    }
    forall q | Names(t, q, x.peer, x.shard)
      ensures q != x.peer && q in t.subscribed && (x in t.parted ==> Farewell(q, x) in t.farewells)
    {
      assert Names(s, q, x.peer, x.shard);
    }
  }

  lemma {:induction false} StepsKeepFading(s: Net, actions: seq<Action>, x: Exit)
    requires Shape(s) && OnlySubscribers(s) && Fading(s, x) && forall a | a in actions :: Undisturbed(a, x)
    ensures Shape(Steps(s, actions)) && OnlySubscribers(Steps(s, actions)) && Fading(Steps(s, actions), x)
    decreases |actions|
  {
    if actions != [] {
      var before, a := actions[..|actions| - 1], actions[|actions| - 1];
      assert a in actions && forall b | b in before :: b in actions;
      StepsKeepFading(s, before, x);
      StepKeepsShape(Steps(s, before), a);
      StepKeepsSubscribers(Steps(s, before), a);
      StepKeepsFading(Steps(s, before), a, x);
    }
  }

  lemma {:induction false} StepsKeepForgotten(s: Net, actions: seq<Action>, p: PeerId, shard: string)
    requires Shape(s) && Forgotten(s, p, shard)
    requires forall a | a in actions && a.Start? :: !(a.join.peer == p && a.join.shard == shard)
    ensures Shape(Steps(s, actions)) && Forgotten(Steps(s, actions), p, shard)
    decreases |actions|
  {
    if actions != [] {
      var before, a := actions[..|actions| - 1], actions[|actions| - 1];
      assert a in actions && forall b | b in before :: b in actions;
      StepsKeepForgotten(s, before, p, shard);
      StepKeepsShape(Steps(s, before), a);
      StepKeepsForgotten(Steps(s, before), a, p, shard);
    }
  }

  lemma LeaveFades(s: Net, x: Exit)
    requires Shape(s) && OnlySubscribers(s) && Enabled(s, Leave(x)) && NoJoinPending(s, x.peer, x.shard)
    requires s.gossip == {} && s.updates == {} && s.tasks == {} && s.images == {}
    ensures Fading(Step(s, Leave(x)), x)
  {
    var t := Step(s, Leave(x));
    forall q | Names(t, q, x.peer, x.shard) ensures q != x.peer && q in t.subscribed && x !in t.parted {
      assert Names(s, q, x.peer, x.shard);
    }
  }

  /** An exit lasts if nothing was pending when the peer left, no join is announced until
      everybody has handled the exit, and the peer does not join that shard again. Joins and
      exits of others afterwards do not bring it back. */
  lemma ExitLasts(members: set<PeerId>, before: seq<Action>, x: Exit, handling: seq<Action>, after: seq<Action>, q: PeerId)
    requires var s := Run(members, before);
      && Enabled(s, Leave(x)) && NoJoinPending(s, x.peer, x.shard)
      && s.gossip == {} && s.updates == {} && s.tasks == {} && s.images == {}
    requires forall a | a in handling :: Undisturbed(a, x)
    requires var t := Run(members, before + [Leave(x)] + handling); x in t.parted && forall f | f in t.farewells :: f.exit != x
    requires forall a | a in after && a.Start? :: !(a.join.peer == x.peer && a.join.shard == x.shard)
    ensures !Names(Run(members, before + [Leave(x)] + handling + after), q, x.peer, x.shard)
  {
    var s, gone := Run(members, before), before + [Leave(x)];
    RunKeepsSubscribers(members, before);
    LeaveFades(s, x);
    RunAppend(members, before, Leave(x));
    RunKeepsSubscribers(members, gone);
    StepsKeepFading(Run(members, gone), handling, x);
    RunSteps(members, gone, handling);
    assert Forgotten(Run(members, gone + handling), x.peer, x.shard);
    StepsKeepForgotten(Run(members, gone + handling), after, x.peer, x.shard);
    RunSteps(members, gone + handling, after);
  }

  /** After the exit of a peer that leaves a quiet network, everybody can forget the peer without
      a disturbance. */
  lemma ExitCompletes(members: set<PeerId>, before: seq<Action>, x: Exit) returns (handling: seq<Action>)
    requires Quiet(Run(members, before)) && Enabled(Run(members, before), Leave(x))
    ensures forall a | a in handling :: Undisturbed(a, x)
    ensures var t := Run(members, before + [Leave(x)] + handling);
      && x in t.parted && t.farewells == {}
      && forall q :: !Names(t, q, x.peer, x.shard)
  {
    var gone := before + [Leave(x)];
    RunAppend(members, before, Leave(x));
    var parting := PartAll(members, gone);
    var forgetting := ForgetAll(members, gone + parting);
    handling := parting + forgetting;
    assert gone + handling == gone + parting + forgetting;
    assert gone + handling + [] == gone + handling;
    forall q ensures !Names(Run(members, gone + handling), q, x.peer, x.shard) {
      ExitLasts(members, before, x, handling, [], q);
    }
  }

  // ---- Exits that do not last ------------------------------------------------------

  /** The part of a situation that concerns two nodes. */
  datatype Scene = Scene(
    subscribed: set<PeerId>,
    mine: ShardMap,              // the map of the node that joins and exits
    theirs: ShardMap,            // the map of the other node
    joins: set<Join>,
    gossip: set<Note>,
    tasks: set<Note>,
    images: set<Image>,
    exits: set<Exit>,
    farewells: set<Farewell>)

  ghost predicate Shows(s: Net, p: PeerId, q: PeerId, v: Scene) {
    && p in s.maps && q in s.maps && p != q
    && s.maps[p] == v.mine && s.maps[q] == v.theirs
    && s.subscribed == v.subscribed && s.started == s.announced == v.joins
    && s.gossip == v.gossip && s.updates == {} && s.tasks == v.tasks && s.images == v.images
    && s.left == s.parted == v.exits && s.farewells == v.farewells
  }

  lemma Subscribing(s: Net, p: PeerId, q: PeerId, v: Scene, r: PeerId)
    requires Shows(s, p, q, v) && (r == p || r == q)
    ensures Shows(Steps(s, [Subscribe(r)]), p, q, v.(subscribed := v.subscribed + {r}))
  {
    OneStep(s, Subscribe(r));
  }

  /** The other node joins alone. */
  lemma OtherJoins(s: Net, p: PeerId, q: PeerId, v: Scene, j: Join)
    requires Shows(s, p, q, v) && v.subscribed == {q} && j.peer == q && j !in v.joins && !Contains(j.shard, Gossip.SEPARATOR)
    ensures Shows(Steps(s, [Start(j), Announce(j)]), p, q,
                  v.(theirs := Joined(v.theirs, q, j.shard), joins := v.joins + {j}))
  {
    TwoSteps(s, Start(j), Announce(j));
  }

  lemma Joining(s: Net, p: PeerId, q: PeerId, v: Scene, j: Join)
    requires Shows(s, p, q, v) && v.subscribed == {p, q} && v.gossip == {}
    requires j.peer == p && j !in v.joins && !Contains(j.shard, Gossip.SEPARATOR)
    ensures Shows(Steps(s, [Start(j), Announce(j)]), p, q,
                  v.(mine := Joined(v.mine, p, j.shard), joins := v.joins + {j}, gossip := {Note(q, j)}))
  {
    TwoSteps(s, Start(j), Announce(j));
  }

  lemma Hearing(s: Net, p: PeerId, q: PeerId, v: Scene, j: Join)
    requires Shows(s, p, q, v) && v.gossip == {Note(q, j)} && v.tasks == {}
    requires j.peer == p && !Contains(j.shard, Gossip.SEPARATOR)
    ensures Shows(Steps(s, [Deliver(Note(q, j)), Update(Note(q, j))]), p, q,
                  v.(theirs := Joined(v.theirs, p, j.shard), gossip := {}, tasks := {Note(q, j)}))
  {
    TwoSteps(s, Deliver(Note(q, j)), Update(Note(q, j)));
    HeardIsJoined(s, v.theirs, j);
  }

  lemma Sending(s: Net, p: PeerId, q: PeerId, v: Scene, n: Note)
    requires Shows(s, p, q, v) && v.tasks == {n} && v.images == {} && n.to == q
    ensures Shows(Steps(s, [ShardNet.Publish(n)]), p, q, v.(tasks := {}, images := {Image(n, v.theirs)}))
  {
    OneStep(s, ShardNet.Publish(n));
  }

  lemma Merging(s: Net, p: PeerId, q: PeerId, v: Scene, i: Image)
    requires Shows(s, p, q, v) && v.images == {i} && i.task.join.peer == p
    ensures Shows(Steps(s, [Merge(i)]), p, q, v.(mine := Merged(v.mine, i.shards), images := {}))
  {
    OneStep(s, Merge(i));
  }

  lemma Leaving(s: Net, p: PeerId, q: PeerId, v: Scene, x: Exit)
    requires Shows(s, p, q, v) && v.subscribed == {p, q} && v.farewells == {}
    requires x.peer == p && x !in v.exits && !Contains(x.shard, Gossip.SEPARATOR)
    ensures Shows(Steps(s, [Leave(x), Part(x)]), p, q,
                  v.(mine := Exited(v.mine, p, x.shard), exits := v.exits + {x}, farewells := {Farewell(q, x)}))
  {
    TwoSteps(s, Leave(x), Part(x));
  }

  lemma Forgetting(s: Net, p: PeerId, q: PeerId, v: Scene, x: Exit)
    requires Shows(s, p, q, v) && v.farewells == {Farewell(q, x)} && x.peer == p && !Contains(x.shard, Gossip.SEPARATOR)
    ensures Shows(Steps(s, [Forget(Farewell(q, x))]), p, q, v.(theirs := Exited(v.theirs, p, x.shard), farewells := {}))
  {
    OneStep(s, Forget(Farewell(q, x)));
    HeardExitIsExited(s, v.theirs, x);
  }

  /** A join up to the image that answers it. */
  lemma JoiningAnswered(s: Net, p: PeerId, q: PeerId, v: Scene, j: Join) returns (actions: seq<Action>)
    requires Shows(s, p, q, v) && v.subscribed == {p, q} && v.gossip == {} && v.tasks == {} && v.images == {}
    requires j.peer == p && j !in v.joins && !Contains(j.shard, Gossip.SEPARATOR)
    ensures var theirs := Joined(v.theirs, p, j.shard);
      Shows(Steps(s, actions), p, q,
            v.(mine := Joined(v.mine, p, j.shard), theirs := theirs, joins := v.joins + {j},
               images := {Image(Note(q, j), theirs)}))
  {
    var a, b, c := [Start(j), Announce(j)], [Deliver(Note(q, j)), Update(Note(q, j))], [ShardNet.Publish(Note(q, j))];
    var v1 := v.(mine := Joined(v.mine, p, j.shard), joins := v.joins + {j}, gossip := {Note(q, j)});
    var v2 := v1.(theirs := Joined(v.theirs, p, j.shard), gossip := {}, tasks := {Note(q, j)});
    Joining(s, p, q, v, j);
    Hearing(Steps(s, a), p, q, v1, j);
    StepsMore(s, a, b);
    Sending(Steps(s, a + b), p, q, v2, Note(q, j));
    StepsMore(s, a + b, c);
    actions := a + b + c;
  }

  /** An exit announced, and handled by the other node. */
  lemma LeavingHandled(s: Net, p: PeerId, q: PeerId, v: Scene, x: Exit) returns (actions: seq<Action>)
    requires Shows(s, p, q, v) && v.subscribed == {p, q} && v.farewells == {}
    requires x.peer == p && x !in v.exits && !Contains(x.shard, Gossip.SEPARATOR)
    ensures Shows(Steps(s, actions), p, q,
                  v.(mine := Exited(v.mine, p, x.shard), theirs := Exited(v.theirs, p, x.shard), exits := v.exits + {x}))
  {
    var a, b := [Leave(x), Part(x)], [Forget(Farewell(q, x))];
    Leaving(s, p, q, v, x);
    Forgetting(Steps(s, a), p, q,
               v.(mine := Exited(v.mine, p, x.shard), exits := v.exits + {x}, farewells := {Farewell(q, x)}), x);
    StepsMore(s, a, b);
    actions := a + b;
  }

  /** A join while an exit announcement is on its way: the join is complete, and then the
      announcement arrives. */
  lemma JoiningTooEarly(s: Net, p: PeerId, q: PeerId, v: Scene, j: Join, x: Exit) returns (actions: seq<Action>)
    requires Shows(s, p, q, v) && v.subscribed == {p, q} && v.gossip == {} && v.tasks == {} && v.images == {}
    requires j.peer == p && j !in v.joins && !Contains(j.shard, Gossip.SEPARATOR)
    requires v.farewells == {Farewell(q, x)} && x.peer == p && x.shard == j.shard
    ensures var theirs := Joined(v.theirs, p, j.shard);
      Shows(Steps(s, actions), p, q,
            v.(mine := Merged(Joined(v.mine, p, j.shard), theirs), theirs := Exited(theirs, p, j.shard),
               joins := v.joins + {j}, farewells := {}))
  {
    var theirs := Joined(v.theirs, p, j.shard);
    var i := Image(Note(q, j), theirs);
    var v1 := v.(mine := Joined(v.mine, p, j.shard), theirs := theirs, joins := v.joins + {j}, images := {i});
    var a := JoiningAnswered(s, p, q, v, j);
    Merging(Steps(s, a), p, q, v1, i);
    StepsMore(s, a, [Merge(i)]);
    Forgetting(Steps(s, a + [Merge(i)]), p, q, v1.(mine := Merged(v1.mine, i.shards), images := {}), x);
    StepsMore(s, a + [Merge(i)], [Forget(Farewell(q, x))]);
    actions := a + [Merge(i)] + [Forget(Farewell(q, x))];
  }

  const NOBODY: Scene := Scene({}, map[], map[], {}, {}, {}, {}, {}, {})

  lemma AtFirst(members: set<PeerId>, p: PeerId, q: PeerId)
    requires p in members && q in members && p != q
    ensures Shows(Run(members, []), p, q, NOBODY)
  {
  }

  /** A node that exits while an image is on its way to it finds itself in its own map again,
      although everybody has handled the exit and nothing is pending. */
  lemma ExitUndone(members: set<PeerId>, p: PeerId, q: PeerId, shard: string) returns (actions: seq<Action>)
    requires p in members && q in members && p != q && !Contains(shard, Gossip.SEPARATOR)
    ensures var s := Run(members, actions);
      && Quiet(s) && s.left == s.parted == {Exit(p, shard, 0)} && s.farewells == {}
      && Names(s, p, p, shard) && !Names(s, q, p, shard)
  {
    var j, x := Join(p, shard, 0), Exit(p, shard, 0);
    var i := Image(Note(q, j), Joined(map[], p, shard));
    var s, v := Run(members, []), NOBODY;
    AtFirst(members, p, q);
    Subscribing(s, p, q, v, p);
    var a := [Subscribe(p)];
    Subscribing(Steps(s, a), p, q, v.(subscribed := {p}), q);
    StepsMore(s, a, [Subscribe(q)]);
    a := a + [Subscribe(q)];
    var v1 := v.(subscribed := {p, q});
    assert Shows(Steps(s, a), p, q, v1);
    var b := JoiningAnswered(Steps(s, a), p, q, v1, j);
    StepsMore(s, a, b);
    var v2 := v1.(mine := Joined(map[], p, shard), theirs := Joined(map[], p, shard), joins := {j}, images := {i});
    assert Shows(Steps(s, a + b), p, q, v2);
    var c := LeavingHandled(Steps(s, a + b), p, q, v2, x);
    StepsMore(s, a + b, c);
    var v3 := v2.(mine := Exited(v2.mine, p, shard), theirs := Exited(v2.theirs, p, shard), exits := {x});
    assert Shows(Steps(s, a + b + c), p, q, v3);
    Merging(Steps(s, a + b + c), p, q, v3, i);
    StepsMore(s, a + b + c, [Merge(i)]);
    actions := a + b + c + [Merge(i)];
    RunSteps(members, [], actions);
    assert [] + actions == actions;
    PeersMerged(v3.mine, i.shards, shard);
  }

  /** Two members of a shard, `q` having joined before `p`. */
  lemma BothJoined(members: set<PeerId>, p: PeerId, q: PeerId, shard: string) returns (actions: seq<Action>, v: Scene)
    requires p in members && q in members && p != q && !Contains(shard, Gossip.SEPARATOR)
    ensures Shows(Run(members, actions), p, q, v)
    ensures v.subscribed == {p, q} && v.joins == {Join(q, shard, 0), Join(p, shard, 0)}
    ensures p in Peers(v.mine, shard) && p in Peers(v.theirs, shard)
    ensures v.gossip == {} && v.tasks == {} && v.images == {} && v.exits == {} && v.farewells == {}
  {
    var jq, j := Join(q, shard, 0), Join(p, shard, 0);
    var s := Run(members, []);
    var a, b, c := [Subscribe(q)], [Start(jq), Announce(jq)], [Subscribe(p)];
    AtFirst(members, p, q);
    Subscribing(s, p, q, NOBODY, q);
    var v1 := NOBODY.(subscribed := {q});
    OtherJoins(Steps(s, a), p, q, v1, jq);
    StepsMore(s, a, b);
    var v2 := v1.(theirs := Joined(map[], q, shard), joins := {jq});
    Subscribing(Steps(s, a + b), p, q, v2, p);
    StepsMore(s, a + b, c);
    var v3 := v2.(subscribed := {p, q});
    assert Shows(Steps(s, a + b + c), p, q, v3);
    var d := JoiningAnswered(Steps(s, a + b + c), p, q, v3, j);
    StepsMore(s, a + b + c, d);
    var i := Image(Note(q, j), Joined(v3.theirs, p, shard));
    var v4 := v3.(mine := Joined(map[], p, shard), theirs := Joined(v3.theirs, p, shard), joins := {jq, j}, images := {i});
    assert Shows(Steps(s, a + b + c + d), p, q, v4);
    Merging(Steps(s, a + b + c + d), p, q, v4, i);
    StepsMore(s, a + b + c + d, [Merge(i)]);
    v := v4.(mine := Merged(v4.mine, i.shards), images := {});
    actions := a + b + c + d + [Merge(i)];
    RunSteps(members, [], actions);
    assert [] + actions == actions;
    PeersMerged(v4.mine, i.shards, shard);
  }

  /** A node that joins a shard again before its exit was handled everywhere can be missing from
      the map of another member, although nothing is pending and its join came last. */
  lemma RejoinForgotten(members: set<PeerId>, p: PeerId, q: PeerId, shard: string)
    returns (before: seq<Action>, after: seq<Action>)
    requires p in members && q in members && p != q && !Contains(shard, Gossip.SEPARATOR)
    ensures var x, j := Exit(p, shard, 0), Join(p, shard, 1);
      Run(members, before).parted == {x} && j !in Run(members, before).started
    ensures var s := Run(members, before + after);
      && Quiet(s) && s.left == s.parted == {Exit(p, shard, 0)} && s.farewells == {} && HasAnnounced(s, q)
      && Join(p, shard, 1) in s.announced && Names(s, p, p, shard) && !Names(s, q, p, shard)
  {
    var x, j := Exit(p, shard, 0), Join(p, shard, 1);
    var a, v := BothJoined(members, p, q, shard);
    var s := Run(members, a);
    var leaving := [Leave(x), Part(x)];
    Leaving(s, p, q, v, x);
    before := a + leaving;
    RunSteps(members, a, leaving);
    var v1 := v.(mine := Exited(v.mine, p, shard), exits := {x}, farewells := {Farewell(q, x)});
    assert Shows(Run(members, before), p, q, v1);
    after := JoiningTooEarly(Run(members, before), p, q, v1, j, x);
    RunSteps(members, before, after);
    var theirs := Joined(v1.theirs, p, shard);
    PeersMerged(Joined(v1.mine, p, shard), theirs, shard);
    assert Join(q, shard, 0) in v.joins;
  }
}
