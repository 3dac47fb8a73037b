/**
 The shard map of a node: which peers are in which shard. The map is changed in place when
 peers join and exit and when the image of another node is merged into it.
 */
module ShardState {
  import opened Wrappers
  import opened Entries
  import Gossip

  type ShardMap = map<string, set<PeerId>>

  function Peers(m: ShardMap, shard: string): set<PeerId> {
    if shard in m then m[shard] else {}
  }

  function Joined(m: ShardMap, peer: PeerId, shard: string): ShardMap {
    m[shard := Peers(m, shard) + {peer}]
  }

  /** The last peer to exit dissolves its shard. */
  function Exited(m: ShardMap, peer: PeerId, shard: string): ShardMap {
    var rest := Peers(m, shard) - {peer};
    if rest == {} then m - {shard} else m[shard := rest]
  }

  /** Pointwise union. */
  function Merged(m: ShardMap, n: ShardMap): ShardMap {
    map shard | shard in m.Keys + n.Keys :: Peers(m, shard) + Peers(n, shard)
  }

  ghost predicate NoEmptyShard(m: ShardMap) {
    forall shard | shard in m :: m[shard] != {}
  }

  lemma PeersMerged(m: ShardMap, n: ShardMap, shard: string)
    ensures Peers(Merged(m, n), shard) == Peers(m, shard) + Peers(n, shard)
  {
  }

  /** A join adds one peer to one shard, creating the shard if need be. */
  lemma JoinedExactly(m: ShardMap, peer: PeerId, shard: string, s: string, p: PeerId)
    ensures p in Peers(Joined(m, peer, shard), s) <==> p in Peers(m, s) || (p == peer && s == shard)
    ensures s in Joined(m, peer, shard) <==> s in m || s == shard
  {
  }

  /** An exit removes one peer from one shard, and the shard if nobody is left in it. */
  lemma ExitedExactly(m: ShardMap, peer: PeerId, shard: string, s: string, p: PeerId)
    ensures p in Peers(Exited(m, peer, shard), s) <==> p in Peers(m, s) && !(p == peer && s == shard)
    ensures s in Exited(m, peer, shard) <==> s in m && !(s == shard && m[shard] <= {peer})
  {
    if shard in m {
      assert m[shard] - {peer} == {} <==> m[shard] <= {peer};
    }
  }

  /** A merge unites shard by shard. */
  lemma MergedExactly(m: ShardMap, n: ShardMap, s: string, p: PeerId)
    ensures p in Peers(Merged(m, n), s) <==> p in Peers(m, s) || p in Peers(n, s)
    ensures s in Merged(m, n) <==> s in m || s in n
  {
    PeersMerged(m, n, s);
  }

  lemma SameMap(m: ShardMap, n: ShardMap)
    requires forall shard :: (shard in m <==> shard in n) && Peers(m, shard) == Peers(n, shard)
    ensures m == n
  {
  }

  lemma MergeCommutes(m: ShardMap, n: ShardMap)
    ensures Merged(m, n) == Merged(n, m)
  {
    SameMap(Merged(m, n), Merged(n, m));
  }

  lemma MergeAssociates(m: ShardMap, n: ShardMap, o: ShardMap)
    ensures Merged(Merged(m, n), o) == Merged(m, Merged(n, o))
  {
    var a, b := Merged(Merged(m, n), o), Merged(m, Merged(n, o));
    forall shard ensures (shard in a <==> shard in b) && Peers(a, shard) == Peers(b, shard) {
      PeersMerged(Merged(m, n), o, shard);
      PeersMerged(m, n, shard);
      PeersMerged(m, Merged(n, o), shard);
      PeersMerged(n, o, shard);
    }
    SameMap(a, b);
  }

  /** Merging an image that brings nothing new, such as one's own, changes nothing. */
  lemma MergeAbsorbs(m: ShardMap, n: ShardMap)
    ensures Merged(m, n) == m <==> forall shard | shard in n :: shard in m && n[shard] <= m[shard]
  {
    if forall shard | shard in n :: shard in m && n[shard] <= m[shard] {
      SameMap(Merged(m, n), m);
    } else {
      var shard :| shard in n && !(shard in m && n[shard] <= m[shard]);
      PeersMerged(m, n, shard);
      assert shard in Merged(m, n);
    }
  }

  /** Merging one more shard of an image. */
  lemma MergeOne(m: ShardMap, part: ShardMap, shard: string, peers: set<PeerId>)
    requires shard !in part
    ensures Merged(m, part[shard := peers]) == Merged(m, part)[shard := Peers(m, shard) + peers]
    ensures Peers(m, shard) + peers ==
      if shard in Merged(m, part) then Merged(m, part)[shard] + peers else peers
  {
  }

  /** Joins, exits and merges never leave an empty shard behind. */
  lemma NoEmptyShardStays(m: ShardMap, n: ShardMap, peer: PeerId, shard: string)
    requires NoEmptyShard(m) && NoEmptyShard(n)
    ensures NoEmptyShard(Joined(m, peer, shard)) && NoEmptyShard(Exited(m, peer, shard)) && NoEmptyShard(Merged(m, n))
  {
  }

  /** Joining and exiting restores the map exactly if the peer was not in the shard and the
      shard was not registered without peers. */
  lemma ExitUndoesJoin(m: ShardMap, peer: PeerId, shard: string)
    ensures Exited(Joined(m, peer, shard), peer, shard) == m <==>
      peer !in Peers(m, shard) && (shard in m ==> m[shard] != {})
  {
  }

  /** Merging an image after an exit brings the exited peer back exactly if the image still
      has it. */
  lemma StaleImageRevives(m: ShardMap, n: ShardMap, peer: PeerId, shard: string)
    ensures peer !in Peers(Exited(m, peer, shard), shard)
    ensures peer in Peers(Merged(Exited(m, peer, shard), n), shard) <==> peer in Peers(n, shard)
  {
  }

  lemma MergeEnds(m: ShardMap, n: ShardMap)
    ensures Merged(m, n - n.Keys) == m && Merged(m, n - {}) == Merged(m, n)
  {
    SameMap(Merged(m, n - n.Keys), m);
    assert n - {} == n;
  }

  lemma RestStep(incoming: ShardMap, todo: set<string>, shard: string)
    requires shard in todo && shard in incoming
    ensures incoming - (todo - {shard}) == (incoming - todo)[shard := incoming[shard]]
    ensures shard !in incoming - todo
  {
  }

  class ShardingInfo {
    const peerId: PeerId
    const id: string
    var state: ShardMap

    constructor (peerId: PeerId, id: string)
      ensures this.peerId == peerId && this.id == id && state == map[]
    {
      this.peerId, this.id := peerId, id;
      state := map[];
    }

    /** Reacting to the join or exit of a peer. */
    method UpdateShardState(peer: PeerId, shard: string, join: bool)
      modifies this`state
      ensures state == if join then Joined(old(state), peer, shard) else Exited(old(state), peer, shard)
    {
      if shard !in state {
        state := state[shard := {}];
      }
      if join {
        state := state[shard := state[shard] + {peer}];
      } else {
        state := state[shard := state[shard] - {peer}];
        if state[shard] == {} {
          state := state - {shard};
        }
      }
    }

    /** Merging the image of another node, shard by shard. */
    method MergeShardStates(incoming: ShardMap)
      modifies this`state
      ensures state == Merged(old(state), incoming)
    {
      var todo := incoming.Keys;
      ghost var before := state;
      MergeEnds(before, incoming);
      while todo != {}
        invariant todo <= incoming.Keys
        invariant state == Merged(before, incoming - todo)
        decreases |todo|
      {
        var shard :| shard in todo;
        RestStep(incoming, todo, shard);
        MergeOne(before, incoming - todo, shard, incoming[shard]);
        state := state[shard := if shard in state then state[shard] + incoming[shard] else incoming[shard]];
        todo := todo - {shard};
      }
    }

    /** The shard map's part of joining: without a network id nothing happens, otherwise the node
        enters itself and announces it. */
    method JoinNetwork(shard: string) returns (announcement: Option<Gossip.Message>)
      modifies this`state
      ensures id == "" ==> announcement == None && state == old(state)
      ensures id != "" ==>
        announcement == Some(Gossip.ShardJoin(peerId, shard)) && state == Joined(old(state), peerId, shard)
    {
      if id == "" {
        return None;
      }
      if shard !in state {
        state := state[shard := {}];
      }
      state := state[shard := state[shard] + {peerId}];
      return Some(Gossip.ShardJoin(peerId, shard));
    }

    /** Exiting. A node that is in no shard afterwards sends one more request; the code sends
        a request to join the gossip network, not to leave it. */
    method ExitNetwork(shard: string) returns (announcement: Gossip.Message, rejoins: bool)
      modifies this`state
      ensures announcement == Gossip.ShardExit(peerId, shard)
      ensures state == Exited(old(state), peerId, shard)
      ensures rejoins <==> forall s | s in state :: peerId !in state[s]
    {
      if shard !in state {
        state := state[shard := {}];
      }
      state := state[shard := state[shard] - {peerId}];
      if state[shard] == {} {
        state := state - {shard};
      }
      announcement := Gossip.ShardExit(peerId, shard);
      rejoins := forall s | s in state :: peerId !in state[s];
    }
  }
}
