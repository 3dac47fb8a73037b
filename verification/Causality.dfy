/**
 Lamport clocks over whole runs: the clock condition for the happens-before relation, and
 what it means for the order in which buffered messages are consumed.
 */
module Causality {
  import opened U64
  import opened Framing
  import opened Entries
  import opened EventualNet
  import Gossip

  /** `b` is a later clock value than `a`, as far as the bounded clock can tell. */
  predicate Later(a: u64, b: u64) {
    a <= b && (a < MAX ==> a < b)
  }

  ghost predicate TraceInv(s: Net) {
    && (forall i | 0 <= i < |s.trace| ::
          && s.trace[i].node in s.nodes
          && s.trace[i].stamp <= s.nodes[s.trace[i].node].lamportClock
          && s.trace[i].id in s.published)
    && (forall i, j | 0 <= i < j < |s.trace| && s.trace[i].node == s.trace[j].node ::
          Later(s.trace[i].stamp, s.trace[j].stamp))
    && (forall i | 0 <= i < |s.trace| && s.trace[i].Sent? :: s.trace[i].stamp == s.published[s.trace[i].id].clock)
    && (forall i | 0 <= i < |s.trace| && s.trace[i].Handled? ::
          Later(s.published[s.trace[i].id].clock, s.trace[i].stamp))
  }

  /** A new event carries a clock later than all its node has seen. */
  lemma TraceGrows(s: Net, t: Net, ev: Event)
    requires TraceInv(s)
    requires t.trace == s.trace + [ev] && ev.node in s.nodes && t.nodes.Keys == s.nodes.Keys
    requires Later(s.nodes[ev.node].lamportClock, ev.stamp) && t.nodes[ev.node].lamportClock == ev.stamp
    requires forall q | q in s.nodes && q != ev.node :: t.nodes[q].lamportClock == s.nodes[q].lamportClock
    requires Extends(s, t) && ev.id in t.published
    requires ev.Sent? ==> ev.stamp == t.published[ev.id].clock
    requires ev.Handled? ==> Later(t.published[ev.id].clock, ev.stamp)
    ensures TraceInv(t)
  {
  }

  /** Publishing raises the clock of the publisher by one and sends the new clock; no other clock
      moves. At the largest number a clock stays. */
  lemma PublishMovesClock(par: Params, s: Net, p: PeerId, id: string, timestamp: u64, data: seq<string>)
    requires ValidParams(par) && Enabled(par, s, Publish(p, id, timestamp, data))
    ensures var t := Step(par, s, Publish(p, id, timestamp, data));
      && id in t.published && t.published[id] == Publication(p, t.nodes[p].lamportClock, timestamp, data)
      && t.nodes[p].lamportClock == (if s.nodes[p].lamportClock < MAX then s.nodes[p].lamportClock + 1 else MAX)
      && t.nodes[p].lastClock == s.nodes[p].lastClock && t.nodes[p].queue == s.nodes[p].queue
      && (forall q | q in s.nodes && q != p :: t.nodes[q] == s.nodes[q])
  {
  }

  /** A receipt puts the clock of the receiver one past the later of both clocks. */
  lemma ReceiptMovesClock(par: Params, s: Net, k: Packet, now: u64)
    requires ValidParams(par) && Reachable(par, s) && k in s.packets && k.to in s.nodes
    ensures k.id in s.published
    ensures var t := Step(par, s, Receive(k, now));
      var a, b := s.nodes[k.to].lamportClock, s.published[k.id].clock;
      && t.nodes.Keys == s.nodes.Keys
      && t.nodes[k.to].lamportClock == (if a >= MAX || b >= MAX then MAX else if a < b then b + 1 else a + 1)
      && (forall q | q in s.nodes && q != k.to :: t.nodes[q] == s.nodes[q])
  {
    var actions :| s == Run(par, actions);
    RunKeepsTrace(par, actions);
    var m := s.published[k.id];
    HeaderArrives(m.timestamp, m.clock, par.network, m.data);
  }

  lemma TraceStays(s: Net, t: Net)
    requires TraceInv(s) && t.trace == s.trace && t.published == s.published
    requires t.nodes.Keys == s.nodes.Keys && forall q | q in s.nodes :: t.nodes[q].lamportClock == s.nodes[q].lamportClock
    ensures TraceInv(t)
  {
  }

  lemma PublishKeepsTrace(par: Params, s: Net, p: PeerId, id: string, timestamp: u64, data: seq<string>)
    requires TraceInv(s) && p in s.nodes && id !in s.published
    ensures TraceInv(DoPublish(par, s, p, id, timestamp, data))
  {
    var t := DoPublish(par, s, p, id, timestamp, data);
    var node := Sending(s.nodes[p]);
    assert t.nodes == s.nodes[p := node] && t.trace == s.trace + [Sent(p, id, node.lamportClock)];
    assert t.published == s.published[id := Publication(p, node.lamportClock, timestamp, data)];
    TraceGrows(s, t, Sent(p, id, node.lamportClock));
  }

  /** Whatever data a message carries, its clock and its network arrive. */
  lemma HeaderArrives(timestamp: u64, clock: u64, network: string, data: seq<string>)
    requires Closed(network, Gossip.SEPARATOR)
    ensures var d := Gossip.Decode(Gossip.Framed(Gossip.Replicated(timestamp, clock, network, data)));
      d.Protocol? && d.message.Replicated? && d.message.clock == clock && d.message.network == network
  {
    Gossip.ReplicatedArrives(timestamp, clock, network, data);
  }

  lemma ReceiveKeepsTrace(par: Params, s: Net, k: Packet, now: u64)
    requires ValidParams(par) && PacketsInv(par, s) && TraceInv(s)
    requires k in s.packets && k.to in s.nodes
    ensures TraceInv(DoReceive(par, s, k, now))
  {
    var m := s.published[k.id];
    HeaderArrives(m.timestamp, m.clock, par.network, m.data);
    var stamp := SaturatingAdd(Max(s.nodes[k.to].lamportClock, m.clock), 1);
    TraceGrows(s, DoReceive(par, s, k, now), Handled(k.to, k.id, stamp));
  }

  /** Anti-entropy and consumption do not touch the Lamport clocks. */
  lemma OthersKeepClocks(par: Params, s: Net, a: Action)
    requires ValidParams(par) && Enabled(par, s, a) && !a.Publish? && !a.Receive?
    ensures var t := Step(par, s, a);
      && t.trace == s.trace && t.published == s.published && t.nodes.Keys == s.nodes.Keys
      && forall q | q in s.nodes :: t.nodes[q].lamportClock == s.nodes[q].lamportClock
  {
  }

  lemma StepKeepsPackets(par: Params, s: Net, a: Action)
    requires ValidParams(par) && PacketsInv(par, s)
    ensures PacketsInv(par, Step(par, s, a))
  {
    if Enabled(par, s, a) {
      match a
      case Publish(p, id, timestamp, data) => PublishPackets(par, s, p, id, timestamp, data);
      case _ =>
    }
  }

  lemma StepKeepsTrace(par: Params, s: Net, a: Action)
    requires ValidParams(par) && PacketsInv(par, s) && TraceInv(s)
    ensures TraceInv(Step(par, s, a))
  {
    if Enabled(par, s, a) {
      match a
      case Publish(p, id, timestamp, data) => PublishKeepsTrace(par, s, p, id, timestamp, data);
      case Receive(k, now) => ReceiveKeepsTrace(par, s, k, now);
      case _ =>
        OthersKeepClocks(par, s, a);
        TraceStays(s, Step(par, s, a));
    }
  }

  lemma {:induction false} RunKeepsTrace(par: Params, actions: seq<Action>)
    requires ValidParams(par)
    ensures PacketsInv(par, Run(par, actions)) && TraceInv(Run(par, actions))
  {
    if actions != [] {
      var before, a := actions[..|actions| - 1], actions[|actions| - 1];
      RunKeepsTrace(par, before);
      StepKeepsPackets(par, Run(par, before), a);
      StepKeepsTrace(par, Run(par, before), a);
    }
  }

  // ---- Happens-before --------------------------------------------------------------

  /** Two events of one node in order, or the sending and the handling of one message. */
  ghost predicate Edge(trace: seq<Event>, i: nat, j: nat) {
    && i < j < |trace|
    && (trace[i].node == trace[j].node || (trace[i].Sent? && trace[j].Handled? && trace[i].id == trace[j].id))
  }

  ghost predicate IsPath(trace: seq<Event>, path: seq<nat>) {
    |path| >= 2 && forall k | 0 <= k < |path| - 1 :: Edge(trace, path[k], path[k + 1])
  }

  /** Event `i` may have influenced event `j`. */
  ghost predicate HappensBefore(trace: seq<Event>, i: nat, j: nat) {
    exists path :: IsPath(trace, path) && path[0] == i && path[|path| - 1] == j
  }

  /** Happens-before contains the order of each node and every message edge, is transitive, and
      relates earlier events to later ones only. */
  lemma HappensBeforeMeaning(trace: seq<Event>, i: nat, j: nat, k: nat)
    ensures i < j < |trace| && trace[i].node == trace[j].node ==> HappensBefore(trace, i, j)
    ensures i < j < |trace| && trace[i].Sent? && trace[j].Handled? && trace[i].id == trace[j].id ==> HappensBefore(trace, i, j)
    ensures HappensBefore(trace, i, j) && HappensBefore(trace, j, k) ==> HappensBefore(trace, i, k)
    ensures HappensBefore(trace, i, j) ==> i < j < |trace|
  {
    if Edge(trace, i, j) {
      assert IsPath(trace, [i, j]);
    }
    if HappensBefore(trace, i, j) {
      var path :| IsPath(trace, path) && path[0] == i && path[|path| - 1] == j;
      PathAscends(trace, path);
      if HappensBefore(trace, j, k) {
        var more :| IsPath(trace, more) && more[0] == j && more[|more| - 1] == k;
        PathsJoin(trace, path, more);
      }
    }
  }

  lemma PathsJoin(trace: seq<Event>, path: seq<nat>, more: seq<nat>)
    requires IsPath(trace, path) && IsPath(trace, more) && path[|path| - 1] == more[0]
    ensures HappensBefore(trace, path[0], more[|more| - 1])
  {
    var all := path + more[1..];
    forall k | 0 <= k < |all| - 1 ensures Edge(trace, all[k], all[k + 1]) {
      if k >= |path| - 1 {
        assert all[k] == more[k - |path| + 1] && all[k + 1] == more[k - |path| + 2];
      }
    }
    assert IsPath(trace, all);
  }

  lemma {:induction false} PathAscends(trace: seq<Event>, path: seq<nat>)
    requires IsPath(trace, path)
    ensures path[0] < path[|path| - 1] < |trace|
    decreases |path|
  {
    var n := |path|;
    assert Edge(trace, path[n - 2], path[n - 1]);
    if n > 2 {
      PathAscends(trace, path[..n - 1]);
    }
  }

  lemma {:induction false} PathStamps(s: Net, path: seq<nat>)
    requires TraceInv(s) && IsPath(s.trace, path)
    ensures path[0] < |s.trace| && path[|path| - 1] < |s.trace|
    ensures Later(s.trace[path[0]].stamp, s.trace[path[|path| - 1]].stamp)
    decreases |path|
  {
    var n := |path|;
    assert Edge(s.trace, path[n - 2], path[n - 1]);
    if n > 2 {
      PathStamps(s, path[..n - 1]);
    }
  }

  lemma ReachableTrace(par: Params, s: Net)
    requires ValidParams(par) && Reachable(par, s)
    ensures TraceInv(s)
  {
    var actions :| s == Run(par, actions);
    RunKeepsTrace(par, actions);
  }

  /** The clock condition: if an event happens before another, its clock is smaller, exactly
      unless its clock has already reached the largest number. */
  lemma ClockCondition(par: Params, s: Net, i: nat, j: nat)
    requires ValidParams(par) && Reachable(par, s) && HappensBefore(s.trace, i, j)
    ensures i < |s.trace| && j < |s.trace|
    ensures s.trace[i].stamp < s.trace[j].stamp <==> s.trace[i].stamp < MAX
  {
    ReachableTrace(par, s);
    var path :| IsPath(s.trace, path) && path[0] == i && path[|path| - 1] == j;
    PathStamps(s, path);
  }

  /** In the terms of messages: the clocks they carry respect causality. */
  lemma MessageClocks(par: Params, s: Net, i: nat, j: nat)
    requires ValidParams(par) && Reachable(par, s) && HappensBefore(s.trace, i, j)
    requires i < |s.trace| && j < |s.trace| && s.trace[i].Sent? && s.trace[j].Sent?
    ensures s.trace[i].id in s.published && s.trace[j].id in s.published
    ensures var a, b := s.published[s.trace[i].id].clock, s.published[s.trace[j].id].clock;
      a < b <==> a < MAX
  {
    ReachableTrace(par, s);
    ClockCondition(par, s, i, j);
  }

  // ---- Consumption -----------------------------------------------------------------

  /** `k` consumptions in a row at one node. */
  ghost function Drained(par: Params, s: Net, p: PeerId, k: nat): Net
    requires ValidParams(par)
  {
    Steps(par, s, seq(k, i => Consume(p)))
  }

  /** Consuming without interruption delivers the buffer in its order, each entry once, and
      leaves the clock of the last one behind. */
  lemma {:induction false} DrainInOrder(par: Params, s: Net, p: PeerId, k: nat)
    requires ValidParams(par) && p in s.nodes && k <= |s.nodes[p].queue|
    ensures var node, after := s.nodes[p], Drained(par, s, p, k);
      && after.nodes.Keys == s.nodes.Keys
      && after.nodes[p].queue == node.queue[k..]
      && after.nodes[p].consumed == node.consumed + node.queue[..k]
      && after.nodes[p].lastClock == if k == 0 then node.lastClock else node.queue[k - 1].lamportClock
  {
    var node := s.nodes[p];
    DrainStep(par, s, p, k);
    if k == 0 {
      assert node.consumed + node.queue[..0] == node.consumed;
    } else {
      DrainInOrder(par, s, p, k - 1);
      assert node.queue[..k] == node.queue[..k - 1] + [node.queue[k - 1]];
    }
  }

  lemma DrainStep(par: Params, s: Net, p: PeerId, k: nat)
    requires ValidParams(par)
    ensures Drained(par, s, p, k) == if k == 0 then s else Step(par, Drained(par, s, p, k - 1), Consume(p))
  {
    if k > 0 {
      assert seq(k, i => Consume(p))[..k - 1] == seq(k - 1, i => Consume(p));
    }
  }

  /** Draining never hands out a message before one that happened before it: of two buffered
      messages the later one in buffer order did not happen before the earlier one. */
  lemma DrainRespectsCausality(par: Params, s: Net, p: PeerId, a: nat, b: nat, i: nat, j: nat)
    requires ValidParams(par) && SafelyReachable(par, s)
    requires p in s.nodes && a < b < |s.nodes[p].queue| && s.nodes[p].queue[b].lamportClock < MAX
    requires i < |s.trace| && s.trace[i].Sent? && s.trace[i].id == s.nodes[p].queue[a].messageId
    requires j < |s.trace| && s.trace[j].Sent? && s.trace[j].id == s.nodes[p].queue[b].messageId
    ensures !HappensBefore(s.trace, j, i)
  {
    ReachableInv(par, s);
    var queue := s.nodes[p].queue;
    assert BufferOk(s, p, s.nodes[p]);
    assert Faithful(s, queue[a]) && Faithful(s, queue[b]) && KeyLess(queue[a], queue[b]);
    ReachableTrace(par, s);
    if HappensBefore(s.trace, j, i) {
      MessageClocks(par, s, j, i);
    }
  }
}
